/**
 * MinistryService: the ministries overview (GetActive) and the detail
 * lookup by slug (GetBySlug).
 */
module MinistryService {
  import opened Wrappers
  import opened Models
  import opened Store
  import opened Sequences
  import opened Collation

  /** `is_active = true` together with the default scope. */
  predicate Active(m: Ministry)
  {
    m.base.Live() && m.isActive
  }

  /** `ORDER BY sort_order ASC, name ASC`. */
  predicate MinistryLe(a: Ministry, b: Ministry)
  {
    a.sortOrder < b.sortOrder || (a.sortOrder == b.sortOrder && NameLe(a.name, b.name))
  }

  lemma MinistryLeIsTotalPreorder()
    ensures TotalPreorder(MinistryLe)
  {
    forall a: Ministry, b: Ministry ensures MinistryLe(a, b) || MinistryLe(b, a) {
      NameLeTotal(a.name, b.name);
    }
    forall a: Ministry, b: Ministry, c: Ministry | MinistryLe(a, b) && MinistryLe(b, c)
      ensures MinistryLe(a, c)
    {
      if a.sortOrder == b.sortOrder == c.sortOrder {
        NameLeTransitive(a.name, b.name, c.name);
      }
    }
  }

  /**
   * GetActive: every active, non-deleted ministry exactly as often as the
   * table holds it, and nothing else; ordered by (sort_order, name). There
   * is no limit. A failed read is returned unchanged.
   */
  function GetActive(read: Read<Ministry>): (r: Result<seq<Ministry>, DbError>)
    ensures read.Failed? ==> r == Err(StoreError(read.cause))
    ensures read.Rows? ==> r.Ok?
    ensures read.Rows? ==> forall m :: multiset(r.value)[m] == if Active(m) then multiset(read.rows)[m] else 0
    ensures read.Rows? ==> Sorted(r.value, MinistryLe)
  {
    match read
    case Failed(cause) => Err(StoreError(cause))
    case Rows(rows) =>
      var active := Filter(rows, Active);
      MinistryLeIsTotalPreorder();
      SortIsSorted(active, MinistryLe);
      Ok(Sort(active, MinistryLe))
  }

  /** Primary keys are unique. */
  ghost predicate UniqueIds(rows: seq<Ministry>)
  {
    forall i, j :: 0 <= i < j < |rows| ==> rows[i].base.id != rows[j].base.id
  }

  /** With unique ids, each active ministry is listed exactly once. */
  lemma ActiveListedOnce(rows: seq<Ministry>, m: Ministry)
    requires UniqueIds(rows)
    requires m in rows && Active(m)
    ensures multiset(GetActive(Rows(rows)).value)[m] == 1
  {
    DistinctOccursOnce(rows, m);
  }

  function NamedMinistry(id: nat, sortOrder: int, name: string): Ministry
  {
    Ministry(SoftDeleteModel(id, 0, 0, None), name, name, "", None, "", "", "", true, sortOrder, "")
  }

  /** Sort order first, then name: (2, Zeta), (1, Alpha), (1, Beta) list as Alpha, Beta, Zeta. */
  lemma SortOrderThenName()
    ensures GetActive(Rows([Zeta(), Alpha(), Beta()])) == Ok([Alpha(), Beta(), Zeta()])
  {
    ExampleAllActive();
    ExampleOrder();
  }

  function Zeta(): Ministry { NamedMinistry(1, 2, "Zeta") }
  function Alpha(): Ministry { NamedMinistry(2, 1, "Alpha") }
  function Beta(): Ministry { NamedMinistry(3, 1, "Beta") }

  lemma ExampleAllActive()
    ensures Filter([Zeta(), Alpha(), Beta()], Active) == [Zeta(), Alpha(), Beta()]
  {
    var rows := [Zeta(), Alpha(), Beta()];
    assert rows[1..] == [Alpha(), Beta()];
    assert rows[1..][1..] == [Beta()];
    assert rows[1..][1..][1..] == [];
  }

  lemma ExampleOrder()
    ensures Sort([Zeta(), Alpha(), Beta()], MinistryLe) == [Alpha(), Beta(), Zeta()]
  {
    var zeta, alpha, beta := Zeta(), Alpha(), Beta();
    assert MinistryLe(alpha, beta) by {
      assert NameLe("Alpha", "Beta");
    }
    assert !MinistryLe(zeta, alpha) && !MinistryLe(zeta, beta);
    assert Sort([alpha, beta], MinistryLe) == [alpha, beta] by {
      assert [alpha, beta][1..] == [beta];
      assert Sort([beta], MinistryLe) == [beta];
    }
    assert Insert(zeta, [alpha, beta], MinistryLe) == [alpha, beta, zeta] by {
      assert [alpha, beta][1..] == [beta];
      assert Insert(zeta, [beta], MinistryLe) == [beta, zeta];
    }
    assert [zeta, alpha, beta][1..] == [alpha, beta];
  }

  /** The lookup's WHERE clause with the default scope: `slug = ? AND is_active = true`. */
  predicate MatchesSlug(slug: string, m: Ministry)
  {
    Active(m) && m.slug == slug
  }

  function MatchesSlugOf(slug: string): Ministry -> bool
  {
    m => MatchesSlug(slug, m)
  }

  /** `First` orders by primary key: the row with the least id, if any. */
  function FirstById(s: seq<Ministry>): (r: Option<Ministry>)
    ensures r.None? <==> s == []
    ensures r.Some? ==> r.value in s && forall m :: m in s ==> r.value.base.id <= m.base.id
  {
    if s == [] then None
    else
      var rest := FirstById(s[1..]);
      assert s == [s[0]] + s[1..];
      if rest.None? || s[0].base.id <= rest.value.base.id then Some(s[0]) else rest
  }

  /**
   * GetBySlug: the active, non-deleted ministry with this slug, or
   * ErrRecordNotFound when there is none; an inactive ministry and a
   * missing one give the same error. An error carries no ministry.
   */
  function GetBySlug(read: Read<Ministry>, slug: string): (r: Result<Ministry, DbError>)
    ensures read.Failed? ==> r == Err(StoreError(read.cause))
    ensures read.Rows? ==> (r.Ok? || r == Err(ErrRecordNotFound))
    ensures read.Rows? ==> (r.Err? <==> forall m :: m in read.rows ==> !MatchesSlug(slug, m))
    ensures r.Ok? ==> read.Rows? && r.value in read.rows
    ensures r.Ok? ==> r.value.slug == slug && r.value.isActive && r.value.base.Live()
    ensures r.Ok? ==> forall m :: m in read.rows && MatchesSlug(slug, m) ==> r.value.base.id <= m.base.id
  {
    match read
    case Failed(cause) => Err(StoreError(cause))
    case Rows(rows) =>
      var matches := Filter(rows, MatchesSlugOf(slug));
      match FirstById(matches)
      case None => Err(ErrRecordNotFound)
      case Some(m) => Ok(m)
  }

  /** The slug column's unique index. */
  ghost predicate UniqueSlugs(rows: seq<Ministry>)
  {
    forall i, j :: 0 <= i < j < |rows| ==> rows[i].slug != rows[j].slug
  }

  /** With unique slugs a successful lookup returns the one row holding that slug. */
  lemma {:induction false} LookupIsDeterministic(rows: seq<Ministry>, slug: string, m: Ministry)
    requires UniqueSlugs(rows)
    requires m in rows && m.slug == slug
    requires GetBySlug(Rows(rows), slug).Ok?
    ensures GetBySlug(Rows(rows), slug).value == m
  {
    var found := GetBySlug(Rows(rows), slug).value;
    var i :| 0 <= i < |rows| && rows[i] == found;
    var j :| 0 <= j < |rows| && rows[j] == m;
    if i < j {
      assert rows[i].slug != rows[j].slug;
    } else if j < i {
      assert rows[j].slug != rows[i].slug;
    }
  }

  /** A slug held only by inactive or deleted ministries, or by none, is not found. */
  lemma HiddenSlugIsNotFound(rows: seq<Ministry>, slug: string)
    requires forall m :: m in rows && m.slug == slug ==> !Active(m)
    ensures GetBySlug(Rows(rows), slug) == Err(ErrRecordNotFound)
  {
  }
}
