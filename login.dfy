/** The login page: the role tabs that switch between the three sign-in
    forms, the password visibility toggle, and the submit handlers that send
    a filled-in form to its dashboard or raise an alert. */
module Login {
  import opened Wrappers
  import opened Dom
  import Forms

  datatype Role = Teacher | Student | Admin

  /** The role as it appears in the page's ids and file names. */
  function RoleName(r: Role): (name: string)
    ensures name in {"teacher", "student", "admin"}
  {
    match r
    case Teacher => "teacher"
    case Student => "student"
    case Admin => "admin"
  }

  // ---------------------------------------------------------------------
  // Role tabs

  const Active := "active"
  const Raised := "scale-105"
  const Hidden := "hidden"

  /** The pale border every tab gets when the tabs are reset. */
  const PaleBorders: set<string> := {"border-blue-100", "border-green-100", "border-purple-100"}
  /** The strong borders, one of which marks the selected tab. */
  const StrongBorders: set<string> := {"border-blue-500", "border-green-500", "border-purple-500"}

  /** The pale border a selected tab loses and the strong one it gains. */
  datatype Swap = Swap(pale: string, strong: string)

  /** The border swap of each role `switchRole` knows: teacher blue,
      student green, admin purple. */
  function SwapOf(role: string): (swap: Option<Swap>)
    ensures swap.Some? <==> role in {"teacher", "student", "admin"}
    ensures swap.Some? ==> swap.value.pale in PaleBorders && swap.value.strong in StrongBorders
  {
    match role
    case "teacher" => Some(Swap("border-blue-100", "border-blue-500"))
    case "student" => Some(Swap("border-green-100", "border-green-500"))
    case "admin" => Some(Swap("border-purple-100", "border-purple-500"))
    case _ => None
  }

  /** A tab after the reset loop of `switchRole`: not active, not raised, no
      strong border, all three pale borders, every other class as it was. */
  function ResetTab(c: set<string>): (r: set<string>)
    ensures Active !in r && Raised !in r
    ensures PaleBorders <= r && r !! StrongBorders
    ensures forall x :: x !in PaleBorders + StrongBorders + {Active, Raised} ==> (x in r <==> x in c)
  {
    c - ({Active, Raised} + StrongBorders) + PaleBorders
  }

  /** The selected tab after `switchRole(role)`, starting from classes `c`:
      active and raised, and for a known role its own pale border swapped
      for the strong one. An unknown role changes no border. */
  function SelectTab(c: set<string>, role: string): (r: set<string>)
    ensures Active in r && Raised in r
    ensures SwapOf(role).None? ==> r * (PaleBorders + StrongBorders) == c * (PaleBorders + StrongBorders)
  {
    var raised := c + {Active, Raised};
    match SwapOf(role)
    case None => raised
    case Some(swap) => raised - {swap.pale} + {swap.strong}
  }

  /** After a reset, selecting a known role leaves exactly one strong border,
      the role's own, and the other two pale ones. */
  lemma SelectedTabBorders(c: set<string>, r: Role)
    ensures var swap := SwapOf(RoleName(r)).value;
      var t := SelectTab(ResetTab(c), RoleName(r));
      t * StrongBorders == {swap.strong} && t * PaleBorders == PaleBorders - {swap.pale}
  {
    var swap := SwapOf(RoleName(r)).value;
    var t := SelectTab(ResetTab(c), RoleName(r));
    assert t == ResetTab(c) + {Active, Raised} - {swap.pale} + {swap.strong};
  }

  /** The reset loop of `switchRole`: every tab is reset, nothing else
      changes. */
  method ResetTabs(tabs: seq<Element>)
    modifies set e | e in tabs
    ensures forall e :: e in tabs ==> e.classes == ResetTab(old(e.classes))
  {
    var k := 0;
    while k < |tabs|
      invariant 0 <= k <= |tabs|
      invariant forall e :: e in tabs ==> e.classes == old(e.classes) || e.classes == ResetTab(old(e.classes))
      invariant forall j :: 0 <= j < k ==> tabs[j].classes == ResetTab(old(tabs[j].classes))
    {
      tabs[k].classes := ResetTab(tabs[k].classes);
      k := k + 1;
    }
  }

  /** The hiding loop of `switchRole`: every form gets "hidden", nothing
      else changes. */
  method HideForms(forms: seq<Element>)
    modifies set e | e in forms
    ensures forall e :: e in forms ==> e.classes == old(e.classes) + {Hidden}
  {
    var n := 0;
    while n < |forms|
      invariant 0 <= n <= |forms|
      invariant forall e :: e in forms ==> e.classes == old(e.classes) || e.classes == old(e.classes) + {Hidden}
      invariant forall j :: 0 <= j < n ==> forms[j].classes == old(forms[j].classes) + {Hidden}
    {
      forms[n].classes := forms[n].classes + {Hidden};
      n := n + 1;
    }
  }

  /** `switchRole(role)`. The page's tabs and forms are disjoint, and the
      ids `<role>-tab` and `<role>-form` exist: the script fails otherwise.
      Every other tab is reset, the selected one is reset and then selected;
      every other form is hidden and the selected one shown. */
  method SwitchRole(elements: seq<Element>, tabs: seq<Element>, forms: seq<Element>, role: string)
    returns (tab: Element, form: Element)
    requires FindById(elements, role + "-tab").Some? && FindById(elements, role + "-form").Some?
    requires forall e :: e in tabs ==> e !in forms
    requires elements[FindById(elements, role + "-tab").value] !in forms
    requires elements[FindById(elements, role + "-form").value] !in tabs
    modifies (set e | e in tabs) + (set e | e in forms)
    modifies set e | e in elements
    ensures tab == elements[FindById(elements, role + "-tab").value]
    ensures form == elements[FindById(elements, role + "-form").value]
    ensures forall e :: e in tabs && e != tab ==> e.classes == ResetTab(old(e.classes))
    ensures tab.classes == SelectTab(if tab in tabs then ResetTab(old(tab.classes)) else old(tab.classes), role)
    ensures forall e :: e in forms && e != form ==> e.classes == old(e.classes) + {Hidden}
    ensures form.classes == old(form.classes) - {Hidden}
    ensures forall e :: e in elements && e !in tabs && e !in forms && e != tab && e != form ==>
      e.classes == old(e.classes)
  {
    ResetTabs(tabs);
    tab := elements[FindById(elements, role + "-tab").value];
    tab.classes := SelectTab(tab.classes, role);
    HideForms(forms);
    form := elements[FindById(elements, role + "-form").value];
    assert (role + "-tab")[|role| + 1] != (role + "-form")[|role| + 1];
    form.classes := form.classes - {Hidden};
  }

  // ---------------------------------------------------------------------
  // Password visibility

  /** `togglePassword(inputId)` of the login page. Unlike the shared
      script's toggle it checks nothing: without the input it throws before
      any change, and without the `<i>` icon it flips the type and then
      throws. `threw` reports the TypeError. */
  method TogglePassword(input: Input?) returns (threw: bool)
    modifies input, if input != null && input.icon != null then {input.icon} else {}
    ensures threw <==> input == null || input.icon == null
    ensures input != null ==> input.inputType == Forms.Toggled(old(input.inputType))
    ensures input != null && input.icon != null ==>
      input.icon.classes == Forms.EyeFor(old(input.icon.classes), input.inputType)
  {
    if input == null {
      return true;
    }
    if input.inputType == "password" {
      input.inputType := "text";
      if input.icon == null {
        return true;
      }
      input.icon.classes := input.icon.classes - {"fa-eye"} + {"fa-eye-slash"};
    } else {
      input.inputType := "password";
      if input.icon == null {
        return true;
      }
      input.icon.classes := input.icon.classes - {"fa-eye-slash"} + {"fa-eye"};
    }
    threw := false;
  }

  // ---------------------------------------------------------------------
  // Submission

  /** What a submit handler does: go to a page, or show an alert. */
  datatype Outcome = Navigate(page: string) | Alert(message: string)

  const FillAllFields := "Please fill in all fields"

  /** The dashboard page of each role. */
  function DashboardOf(r: Role): (page: string)
    ensures page == "dashboard-" + RoleName(r) + ".html"
  {
    match r
    case Teacher => "dashboard-teacher.html"
    case Student => "dashboard-student.html"
    case Admin => "dashboard-admin.html"
  }

  /** The submit handler of role `r`'s form, given the values of its two
      fields (email, or username for students, then password). Values are not
      trimmed: any non-empty text counts as filled in. */
  function Submit(r: Role, identifier: string, password: string): (o: Outcome)
    ensures o.Navigate? <==> identifier != "" && password != ""
    ensures o.Navigate? ==> o.page == "dashboard-" + RoleName(r) + ".html"
    ensures o.Alert? ==> o.message == FillAllFields
  {
    if identifier != "" && password != "" then Navigate(DashboardOf(r)) else Alert(FillAllFields)
  }

  /** Each role lands on a dashboard of its own. */
  lemma RolesRouteApart(a: Role, b: Role, ida: string, pwa: string, idb: string, pwb: string)
    requires Submit(a, ida, pwa).Navigate? && Submit(b, idb, pwb).Navigate?
    requires Submit(a, ida, pwa) == Submit(b, idb, pwb)
    ensures a == b
  {
    var pa, pb := DashboardOf(a), DashboardOf(b);
    assert pa[10] == RoleName(a)[0];
    assert pb[10] == RoleName(b)[0];
  }

  /** White space alone passes the check. */
  lemma BlankFieldsPass(r: Role)
    ensures Submit(r, " ", " ") == Navigate(DashboardOf(r))
  {
  }
}
