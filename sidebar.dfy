/**
 * The navigation menu of src/components/layout/Sidebar.tsx: a fixed table
 * of pages, each listing the roles allowed to see it.
 */
module Sidebar {
  import opened Types
  import opened Seqs

  /** One entry of `navItems`; the icon is left out. */
  datatype NavItem = NavItem(title: string, href: string, roles: seq<Role>)

  /** `navItems`: four pages for HR only, and the attendance form for both roles. */
  const NavItems: seq<NavItem> := [
    NavItem("Dashboard", "/", [HR]),
    NavItem("Events", "/events", [HR]),
    NavItem("Weekly Class", "/weekly-class", [HR]),
    NavItem("Fill Attendance", "/fill-attendance", [HR, DutyOfficer]),
    NavItem("View Absences", "/absences", [HR])
  ]

  function AllowedFor(role: Role): NavItem -> bool {
    (item: NavItem) => role in item.roles
  }

  /** `filteredNavItems`: the table's entries that list the role, in table order. */
  function VisibleItems(role: Role): (r: seq<NavItem>)
    ensures forall item :: item in r <==> item in NavItems && role in item.roles
  {
    Filter(NavItems, AllowedFor(role))
  }

  /** The menu never shows an entry twice and keeps the table's order. */
  lemma VisibleItemsIsOrderedSelection(role: Role)
    ensures IsSubsequence(VisibleItems(role), NavItems)
    ensures Distinct(VisibleItems(role))
  {
    FilterIsSubsequence(NavItems, AllowedFor(role));
    NavItemsDistinct();
    FilterDistinct(NavItems, AllowedFor(role));
  }

  /** The table's titles start with five different letters, so no entry repeats. */
  lemma NavItemsDistinct()
    ensures Distinct(NavItems)
  {
    forall i, j | 0 <= i < j < |NavItems| ensures NavItems[i] != NavItems[j] {
      assert NavItems[i].title[0] != NavItems[j].title[0];
    }
  }

  /** HR sees the whole table. */
  lemma HRSeesEverything()
    ensures VisibleItems(HR) == NavItems
  {
    FilterKeepsAll(NavItems, AllowedFor(HR));
  }

  /** The duty officer sees the attendance form and nothing else. */
  lemma DutyOfficerSeesOnlyFillAttendance()
    ensures VisibleItems(DutyOfficer) == [NavItem("Fill Attendance", "/fill-attendance", [HR, DutyOfficer])]
  {
    var p := AllowedFor(DutyOfficer);
    assert NavItems == NavItems[..3] + [NavItems[3]] + [NavItems[4]];
    FilterConcat(NavItems[..3] + [NavItems[3]], [NavItems[4]], p);
    FilterConcat(NavItems[..3], [NavItems[3]], p);
    FilterNone(NavItems[..3], p);
    FilterNone([NavItems[4]], p);
    FilterKeepsAll([NavItems[3]], p);
  }
}
