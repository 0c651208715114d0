/** StaffMemberService.GetActive: the staff listing. */
module StaffMemberService {
  import opened Wrappers
  import opened Models
  import opened Store
  import opened Sequences
  import opened Collation

  /** `is_active = true` together with the default scope. */
  predicate Active(s: StaffMember)
  {
    s.base.Live() && s.isActive
  }

  /** `ORDER BY display_order ASC, name ASC`. */
  predicate StaffLe(a: StaffMember, b: StaffMember)
  {
    a.displayOrder < b.displayOrder || (a.displayOrder == b.displayOrder && NameLe(a.name, b.name))
  }

  lemma StaffLeIsTotalPreorder()
    ensures TotalPreorder(StaffLe)
  {
    forall a: StaffMember, b: StaffMember ensures StaffLe(a, b) || StaffLe(b, a) {
      NameLeTotal(a.name, b.name);
    }
    forall a: StaffMember, b: StaffMember, c: StaffMember | StaffLe(a, b) && StaffLe(b, c)
      ensures StaffLe(a, c)
    {
      if a.displayOrder == b.displayOrder == c.displayOrder {
        NameLeTransitive(a.name, b.name, c.name);
      }
    }
  }

  /**
   * GetActive: every active, non-deleted member exactly as often as the
   * table holds it, and nothing else; ordered by (display_order, name). There
   * is no limit. A failed read is returned unchanged.
   */
  function GetActive(read: Read<StaffMember>): (r: Result<seq<StaffMember>, DbError>)
    ensures read.Failed? ==> r == Err(StoreError(read.cause))
    ensures read.Rows? ==> r.Ok?
    ensures read.Rows? ==> forall s :: multiset(r.value)[s] == if Active(s) then multiset(read.rows)[s] else 0
    ensures read.Rows? ==> Sorted(r.value, StaffLe)
  {
    match read
    case Failed(cause) => Err(StoreError(cause))
    case Rows(rows) =>
      var active := Filter(rows, Active);
      StaffLeIsTotalPreorder();
      SortIsSorted(active, StaffLe);
      Ok(Sort(active, StaffLe))
  }

  /** Primary keys are unique. */
  ghost predicate UniqueIds(rows: seq<StaffMember>)
  {
    forall i, j :: 0 <= i < j < |rows| ==> rows[i].base.id != rows[j].base.id
  }

  /** With unique ids, each active member is listed exactly once. */
  lemma ActiveListedOnce(rows: seq<StaffMember>, s: StaffMember)
    requires UniqueIds(rows)
    requires s in rows && Active(s)
    ensures multiset(GetActive(Rows(rows)).value)[s] == 1
  {
    DistinctOccursOnce(rows, s);
  }

  /** An inactive member is never listed, however low its display order. */
  lemma InactiveNeverListed(rows: seq<StaffMember>, s: StaffMember)
    requires !s.isActive
    ensures s !in GetActive(Rows(rows)).value
  {
    assert multiset(GetActive(Rows(rows)).value)[s] == 0;
  }
}
