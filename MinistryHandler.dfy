/**
 * MinistryHandler: the ministries overview page and the ministry detail
 * page. Each handler branches on its service call's outcome; a failed
 * render is logged and changes nothing the client has been sent.
 */
module MinistryHandler {
  import opened Wrappers
  import opened Models
  import opened Store
  import opened Http
  import MinistryService

  /** GET /ministries. */
  function Index(read: Read<Ministry>, renderOk: bool): (h: Handled)
    ensures read.Failed? ==>
              && Replay(h.ops) == Response(StatusInternalServerError, PlainTextHeaders, [Text("Internal Server Error\n")])
              && h.log == ["failed to load ministries"]
    ensures read.Rows? ==>
              var listed := MinistryService.GetActive(read).value;
              && Replay(h.ops) == Response(StatusOK, map[], if renderOk then [Page(MinistriesIndex(listed))] else [])
              && h.log == (if renderOk then [] else ["failed to render ministries index page"])
  {
    match MinistryService.GetActive(read)
    case Err(_) =>
      ErrorReply("Internal Server Error", StatusInternalServerError);
      assert "Internal Server Error" + "\n" == "Internal Server Error\n";
      Handled(Error("Internal Server Error", StatusInternalServerError), ["failed to load ministries"])
    case Ok(ministries) =>
      var view := MinistriesIndex(ministries);
      RenderReply(view, renderOk);
      Handled(Render(view, renderOk), if renderOk then [] else ["failed to render ministries index page"])
  }

  /**
   * GET /ministries/{slug}, the slug taken verbatim from the URL. Not found
   * answers 404, any other lookup error 500, and only a found ministry is
   * ever rendered.
   */
  function Show(read: Read<Ministry>, urlSlug: string, renderOk: bool): (h: Handled)
    ensures var found := MinistryService.GetBySlug(read, urlSlug);
            found == Err(ErrRecordNotFound) ==>
              && Replay(h.ops) == Response(StatusNotFound, PlainTextHeaders, [Text("Ministry not found\n")])
              && h.log == []
    ensures var found := MinistryService.GetBySlug(read, urlSlug);
            found.Err? && found.error.StoreError? ==>
              && Replay(h.ops) == Response(StatusInternalServerError, PlainTextHeaders, [Text("Internal Server Error\n")])
              && h.log == ["failed to load ministry"]
    ensures var found := MinistryService.GetBySlug(read, urlSlug);
            found.Ok? ==>
              && Replay(h.ops) == Response(StatusOK, map[], if renderOk then [Page(MinistryShow(found.value))] else [])
              && h.log == (if renderOk then [] else ["failed to render ministry show page"])
    ensures forall p :: p in Replay(h.ops).body && p.Page? ==>
              && p.view.MinistryShow?
              && read.Rows? && p.view.ministry in read.rows
              && p.view.ministry.slug == urlSlug
              && MinistryService.Active(p.view.ministry)
  {
    match MinistryService.GetBySlug(read, urlSlug)
    case Err(ErrRecordNotFound) =>
      ErrorReply("Ministry not found", StatusNotFound);
      assert "Ministry not found" + "\n" == "Ministry not found\n";
      Handled(Error("Ministry not found", StatusNotFound), [])
    case Err(StoreError(_)) =>
      ErrorReply("Internal Server Error", StatusInternalServerError);
      assert "Internal Server Error" + "\n" == "Internal Server Error\n";
      Handled(Error("Internal Server Error", StatusInternalServerError), ["failed to load ministry"])
    case Ok(ministry) =>
      var view := MinistryShow(ministry);
      RenderReply(view, renderOk);
      Handled(Render(view, renderOk), if renderOk then [] else ["failed to render ministry show page"])
  }

  /**
   * The detail page of a ministry that is inactive (or deleted, or missing)
   * answers 404 and shows none of its content.
   */
  lemma InactiveMinistryPageIsNotFound(rows: seq<Ministry>, slug: string, renderOk: bool)
    requires forall m :: m in rows && m.slug == slug ==> !m.isActive
    ensures Replay(Show(Rows(rows), slug, renderOk).ops).status == StatusNotFound
    ensures forall p :: p in Replay(Show(Rows(rows), slug, renderOk).ops).body ==> !p.Page?
  {
    MinistryService.HiddenSlugIsNotFound(rows, slug);
  }

  /** Whether rendering fails changes only the log, never the status. */
  lemma RenderFailureOnlyLogged(read: Read<Ministry>, slug: string)
    ensures Replay(Show(read, slug, false).ops).status == Replay(Show(read, slug, true).ops).status
    ensures Replay(Index(read, false).ops).status == Replay(Index(read, true).ops).status
  {
  }
}
