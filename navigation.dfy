/** Switching the dashboard's content sections: `showSection` hides every
    `.content-section`, shows the one whose id is `<name>-section`, marks the
    matching `.nav-item` with "active-nav" and sets the breadcrumb. */
module Navigation {
  import opened Wrappers
  import opened Dom

  const Hidden := "hidden"
  const ActiveNav := "active-nav"

  /** The trailing breadcrumb text `updateBreadcrumb` writes for a section,
      `None` for a section it has no entry for. */
  function BreadcrumbLabel(section: string): (r: Option<string>)
    ensures r.Some? <==> section in {"dashboard", "manage-students", "view-results", "add-marks"}
  {
    match section
    case "dashboard" => Some("Dashboard")
    case "manage-students" => Some("Manage Students")
    case "view-results" => Some("View Results")
    case "add-marks" => Some("Add Marks")
    case _ => None
  }

  /** Whether nav item `item` is the link to `section`. */
  predicate Links(item: Element, section: string)
  {
    "section" in item.data && item.data["section"] == section
  }

  /** The elements of a dashboard page that `showSection` touches. */
  class Page {
    /** Every element with an id, in document order. */
    const elements: seq<Element>
    /** The `.content-section` elements. */
    const sections: seq<Element>
    /** The `.nav-item` elements. */
    const navItems: seq<Element>
    /** Whether the page has a `.breadcrumb`, and the section name it shows. */
    const hasBreadcrumb: bool
    var breadcrumb: string

    constructor (elements: seq<Element>, sections: seq<Element>, navItems: seq<Element>, hasBreadcrumb: bool, breadcrumb: string)
      ensures this.elements == elements && this.sections == sections && this.navItems == navItems
      ensures this.hasBreadcrumb == hasBreadcrumb && this.breadcrumb == breadcrumb
    {
      this.elements := elements;
      this.sections := sections;
      this.navItems := navItems;
      this.hasBreadcrumb := hasBreadcrumb;
      this.breadcrumb := breadcrumb;
    }

    /** The elements whose classes `showSection` may change. */
    ghost function Touched(): set<Element>
      reads this
    {
      (set e | e in elements) + (set e | e in sections) + (set e | e in navItems)
    }
  }

  /** Adds "hidden" to every content section; nothing else changes. */
  method HideAll(sections: seq<Element>)
    modifies set e | e in sections
    ensures forall e :: e in sections ==> e.classes == old(e.classes) + {Hidden}
  {
    var k := 0;
    while k < |sections|
      invariant 0 <= k <= |sections|
      invariant forall e :: e in sections ==>
        e.classes == old(e.classes) || e.classes == old(e.classes) + {Hidden}
      invariant forall j :: 0 <= j < k ==> sections[j].classes == old(sections[j].classes) + {Hidden}
    {
      sections[k].classes := sections[k].classes + {Hidden};
      k := k + 1;
    }
  }

  /** `updateActiveNav(section)`: exactly the items linking to `section`
      carry "active-nav"; their other classes stay. */
  method UpdateActiveNav(items: seq<Element>, section: string)
    modifies set e | e in items
    ensures forall e :: e in items ==>
      e.classes == if Links(e, section) then old(e.classes) + {ActiveNav} else old(e.classes) - {ActiveNav}
  {
    var k := 0;
    while k < |items|
      invariant 0 <= k <= |items|
      invariant forall e :: e in items ==>
        e.classes == old(e.classes)
        || e.classes == if Links(e, section) then old(e.classes) + {ActiveNav} else old(e.classes) - {ActiveNav}
      invariant forall j :: 0 <= j < k ==> (items[j].classes ==
        if Links(items[j], section) then old(items[j].classes) + {ActiveNav} else old(items[j].classes) - {ActiveNav})
    {
      var item := items[k];
      item.classes := item.classes - {ActiveNav};
      if Links(item, section) {
        item.classes := item.classes + {ActiveNav};
      }
      k := k + 1;
    }
  }

  /** `showSection(section)`. Every content section is hidden; the element
      with id `<section>-section`, if there is one, is shown, and then the nav
      and the breadcrumb follow. Without such an element the nav and the
      breadcrumb are left alone. Content sections and nav items are
      disjoint, and the target is not a nav item. */
  method ShowSection(p: Page, section: string) returns (target: Option<Element>)
    requires forall e :: e in p.sections ==> e !in p.navItems
    requires forall e :: e in p.elements && e.id == section + "-section" ==> e !in p.navItems
    modifies p, p.Touched()
    ensures target == (match FindById(p.elements, section + "-section")
                       case None => None
                       case Some(i) => Some(p.elements[i]))
    ensures forall e :: e in p.sections && Some(e) != target ==> e.classes == old(e.classes) + {Hidden}
    ensures target.Some? ==> target.value.classes == old(target.value.classes) - {Hidden}
    ensures target.Some? ==> forall e :: e in p.navItems ==>
      e.classes == if Links(e, section) then old(e.classes) + {ActiveNav} else old(e.classes) - {ActiveNav}
    ensures target.None? ==> forall e :: e in p.navItems ==> e.classes == old(e.classes)
    ensures forall e :: e in p.elements && e !in p.sections && e !in p.navItems && Some(e) != target ==>
      e.classes == old(e.classes)
    ensures p.breadcrumb ==
      if target.Some? && p.hasBreadcrumb && BreadcrumbLabel(section).Some? then BreadcrumbLabel(section).value
      else old(p.breadcrumb)
  {
    HideAll(p.sections);
    var found := FindById(p.elements, section + "-section");
    if found.None? {
      return None;
    }
    var t := p.elements[found.value];
    target := Some(t);
    t.classes := t.classes - {Hidden};
    UpdateActiveNav(p.navItems, section);
    var crumb := BreadcrumbLabel(section);
    if p.hasBreadcrumb && crumb.Some? {
      p.breadcrumb := crumb.value;
    }
  }
}
