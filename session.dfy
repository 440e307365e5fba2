/** The dashboard's view of the signed-in user: the user record read from
    session storage, the header texts and page title drawn from it, the guest
    check, the "n units ago" labels, and the storage clearing on logout. The
    clock is a parameter (`now`, in milliseconds); the delayed redirects are
    recorded as the page they go to. */
module Session {
  import opened JsString
  import opened Wrappers
  import opened Dom
  import opened Notifications

  // ---------------------------------------------------------------------
  // Relative time

  const MinuteMs := 60000
  const HourMs := 3600000
  const DayMs := 86400000

  datatype Unit = Day | Hour | Minute

  /** What `updateRelativeTime` says about an age: a count of the largest
      unit that fits, or "Just now". */
  datatype Elapsed = Ago(count: nat, unit: Unit) | JustNow

  /** The age `diff` (in milliseconds) as `updateRelativeTime` reads it:
      whole minutes, hours and days are floors, and the first of days, hours,
      minutes that is positive is used. The contract states each outcome by
      the range of ages it covers. */
  function ElapsedOf(diff: int): (e: Elapsed)
    ensures e == JustNow <==> diff < MinuteMs
    ensures e.Ago? ==> e.count >= 1
    ensures e.Ago? && e.unit == Day ==>
      DayMs <= diff && e.count * DayMs <= diff < (e.count + 1) * DayMs
    ensures e.Ago? && e.unit == Hour ==>
      HourMs <= diff < DayMs && e.count * HourMs <= diff < (e.count + 1) * HourMs
    ensures e.Ago? && e.unit == Minute ==>
      MinuteMs <= diff < HourMs && e.count * MinuteMs <= diff < (e.count + 1) * MinuteMs
  {
    var minutes := diff / MinuteMs;
    var hours := minutes / 60;
    var days := hours / 24;
    if days > 0 then Ago(days, Day)
    else if hours > 0 then Ago(hours, Hour)
    else if minutes > 0 then Ago(minutes, Minute)
    else JustNow
  }

  function UnitName(u: Unit): string {
    match u
    case Day => "day"
    case Hour => "hour"
    case Minute => "minute"
  }

  /** What follows the count: the unit, a plural "s" when the count is
      above one, and " ago". */
  function UnitPhrase(n: nat, u: Unit): string {
    " " + UnitName(u) + (if n > 1 then "s" else "") + " ago"
  }

  /** The text of one `[data-time]` element. */
  function LabelOf(e: Elapsed): (text: string)
    ensures text == "Just now" <==> e.JustNow?
    ensures e.Ago? ==> ParseInt(text) == Some(e.count as int)
  {
    match e
    case JustNow => "Just now"
    case Ago(n, u) =>
      var digits := NatToString(n);
      assert IntToString(n) == digits;
      ParseIntPrefix(n, UnitPhrase(n, u));
      assert (digits + UnitPhrase(n, u))[0] == digits[0];
      digits + UnitPhrase(n, u)
  }

  /** The label for a timestamp that parsed to `parsed` (`None` for an
      invalid date, whose NaN age fails every comparison). */
  function RelativeLabel(now: int, parsed: Option<int>): (shown: string)
    ensures parsed.None? ==> shown == "Just now"
    ensures parsed.Some? && now - parsed.value < MinuteMs ==> shown == "Just now"
  {
    if parsed.None? then LabelOf(JustNow) else LabelOf(ElapsedOf(now - parsed.value))
  }

  /** The unit takes a plural "s" exactly when the count is above one. */
  lemma PluralIffMany(n: nat, u: Unit)
    requires n >= 1
    ensures var text := LabelOf(Ago(n, u));
      text[|text| - 5] == 's' <==> n > 1
  {
  }

  /** Two ages get the same label only when they have the same count and
      unit: the label is never ambiguous. */
  lemma LabelInjective(a: Elapsed, b: Elapsed)
    requires LabelOf(a) == LabelOf(b)
    ensures a == b
  {
    if a.Ago? && b.Ago? {
      DigitsThenSpace(NatToString(a.count), UnitPhrase(a.count, a.unit), NatToString(b.count), UnitPhrase(b.count, b.unit));
      NatToStringInjective(a.count, b.count);
      assert UnitPhrase(a.count, a.unit)[1] == UnitName(a.unit)[0];
      assert UnitPhrase(b.count, b.unit)[1] == UnitName(b.unit)[0];
    }
  }

  /** A run of digits followed by a space is read back unambiguously. */
  lemma DigitsThenSpace(x: string, restX: string, y: string, restY: string)
    requires forall i :: 0 <= i < |x| ==> IsDigit(x[i])
    requires forall i :: 0 <= i < |y| ==> IsDigit(y[i])
    requires restX != [] && restX[0] == ' ' && restY != [] && restY[0] == ' '
    requires x + restX == y + restY
    ensures x == y && restX == restY
  {
    var m := if |x| <= |y| then |x| else |y|;
    assert (x + restX)[m] == (y + restY)[m];
    assert |x| == |y|;
    assert x == (x + restX)[..|x|];
    assert y == (y + restY)[..|y|];
    assert restX == (x + restX)[|x|..];
    assert restY == (y + restY)[|y|..];
  }

  /** A `[data-time]` element: its attribute text, the time the attribute
      parses to, and its text content. */
  class TimedLabel {
    const time: string
    const parsed: Option<int>
    var text: string

    constructor (time: string, parsed: Option<int>, text: string)
      ensures this.time == time && this.parsed == parsed && this.text == text
    {
      this.time := time;
      this.parsed := parsed;
      this.text := text;
    }
  }

  /** `updateRelativeTime` at time `now`: each element with a non-empty
      `data-time` shows the label of its age; the others keep their text. */
  method UpdateRelativeTime(labels: seq<TimedLabel>, now: int)
    modifies set l | l in labels
    ensures forall l :: l in labels ==>
      l.text == if l.time == "" then old(l.text) else RelativeLabel(now, l.parsed)
  {
    var n := 0;
    while n < |labels|
      invariant 0 <= n <= |labels|
      invariant forall k :: 0 <= k < n ==>
        labels[k].time != "" ==> labels[k].text == RelativeLabel(now, labels[k].parsed)
      invariant forall l :: l in labels && l.time == "" ==> l.text == old(l.text)
    {
      var l := labels[n];
      if l.time != "" {
        l.text := RelativeLabel(now, l.parsed);
      }
      n := n + 1;
    }
  }

  // ---------------------------------------------------------------------
  // The signed-in user

  datatype User = User(role: string, name: string, email: string, id: string, department: string)

  /** `getItem(key) || fallback`: a missing key and an empty value both give
      the fallback. */
  function StoredOr(store: map<string, string>, key: string, fallback: string): (v: string)
    ensures v == fallback || (key in store && v == store[key] && v != "")
    ensures v == fallback <== key !in store || store[key] == ""
  {
    if key in store && store[key] != "" then store[key] else fallback
  }

  /** `loadUserData`'s record. */
  function UserFromSession(session: map<string, string>): (u: User)
    ensures u.role != "" && u.name != ""
    ensures "userRole" !in session || session["userRole"] == "" ==> u.role == "guest"
    ensures "userName" !in session || session["userName"] == "" ==> u.name == "User"
    ensures "userRole" in session && session["userRole"] != "" ==> u.role == session["userRole"]
    ensures "userName" in session && session["userName"] != "" ==> u.name == session["userName"]
    ensures u.email == (if "userEmail" in session then session["userEmail"] else "")
    ensures u.id == (if "userID" in session then session["userID"] else "")
    ensures u.department == (if "userDepartment" in session then session["userDepartment"] else "")
  {
    User(
      StoredOr(session, "userRole", "guest"),
      StoredOr(session, "userName", "User"),
      StoredOr(session, "userEmail", ""),
      StoredOr(session, "userID", ""),
      StoredOr(session, "userDepartment", ""))
  }

  /** A session without a stored role is a guest session. */
  lemma EmptySessionIsGuest()
    ensures UserFromSession(map[]) == User("guest", "User", "", "", "")
  {
  }

  /** The first character upper-cased, the rest as it is. */
  function Capitalize(s: string): (r: string)
    ensures |r| == |s|
    ensures s != [] ==> r[0] == UpperChar(s[0]) && r[1..] == s[1..]
  {
    if s == [] then [] else [UpperChar(s[0])] + s[1..]
  }

  /** Capitalizing twice is capitalizing once. */
  lemma CapitalizeIdempotent(s: string)
    ensures Capitalize(Capitalize(s)) == Capitalize(s)
  {
    if s != [] {
      assert Capitalize(s)[1..] == s[1..];
    }
  }

  /** The `page-title` text after `updateUserUI`: left alone when it already
      mentions "Dashboard", otherwise "<Role> Dashboard", which does. */
  function Retitled(title: string, role: string): (r: string)
    ensures Contains(r, "Dashboard")
    ensures Contains(title, "Dashboard") ==> r == title
  {
    if Contains(title, "Dashboard") then title
    else
      var t := Capitalize(role) + " Dashboard";
      assert t[|t| - 9..] == "Dashboard";
      assert OccursAt(t, "Dashboard", |t| - 9);
      t
  }

  /** Retitling again changes nothing, whatever the role. */
  lemma RetitledIdempotent(title: string, role: string, role2: string)
    ensures Retitled(Retitled(title, role), role2) == Retitled(title, role)
  {
  }

  /** The header elements `updateUserUI` writes: all name elements, all role
      elements, and so on, plus the page title when the page has one. */
  class Header {
    const names: seq<TextNode>
    const roles: seq<TextNode>
    const emails: seq<TextNode>
    const ids: seq<TextNode>
    const title: TextNode?

    constructor (names: seq<TextNode>, roles: seq<TextNode>, emails: seq<TextNode>, ids: seq<TextNode>, title: TextNode?)
      ensures this.names == names && this.roles == roles && this.emails == emails
      ensures this.ids == ids && this.title == title
    {
      this.names := names;
      this.roles := roles;
      this.emails := emails;
      this.ids := ids;
      this.title := title;
    }

    /** Each node belongs to one group: the groups are selected by
        different element ids. */
    ghost predicate Valid()
      reads this
    {
      && (forall n :: n in names ==> n !in roles && n !in emails && n !in ids && n != title)
      && (forall n :: n in roles ==> n !in emails && n !in ids && n != title)
      && (forall n :: n in emails ==> n !in ids && n != title)
      && (forall n :: n in ids ==> n != title)
    }

    ghost function Nodes(): set<TextNode>
      reads this
    {
      (set n | n in names) + (set n | n in roles) + (set n | n in emails) + (set n | n in ids)
      + (if title != null then {title} else {})
    }
  }

  /** Sets the text of every node in `nodes`. */
  method SetAll(nodes: seq<TextNode>, text: string)
    modifies set n | n in nodes
    ensures forall n :: n in nodes ==> n.text == text
  {
    var k := 0;
    while k < |nodes|
      invariant 0 <= k <= |nodes|
      invariant forall j :: 0 <= j < k ==> nodes[j].text == text
    {
      nodes[k].text := text;
      k := k + 1;
    }
  }

  /** `updateUserUI` for user `u`. */
  method UpdateUserUI(h: Header, u: User)
    requires h.Valid()
    modifies h.Nodes()
    ensures forall n :: n in h.names ==> n.text == u.name
    ensures forall n :: n in h.roles ==> n.text == Capitalize(u.role)
    ensures forall n :: n in h.emails ==> n.text == u.email
    ensures forall n :: n in h.ids ==> n.text == u.id
    ensures h.title != null ==> h.title.text == Retitled(old(h.title.text), u.role)
  {
    SetAll(h.names, u.name);
    SetAll(h.roles, Capitalize(u.role));
    SetAll(h.emails, u.email);
    SetAll(h.ids, u.id);
    if h.title != null && !Contains(h.title.text, "Dashboard") {
      h.title.text := Capitalize(u.role) + " Dashboard";
    }
  }

  // ---------------------------------------------------------------------
  // Logout

  /** The keys logout removes from local storage when the login is remembered. */
  const UserKeys: set<string> := {"userRole", "userEmail", "userName"}

  predicate Remembered(local: map<string, string>) {
    "rememberLogin" in local && local["rememberLogin"] == "true"
  }

  /** Local storage after logout: emptied, unless the login is remembered;
      then only the three user keys go and every other entry stays as it was. */
  function LoggedOut(local: map<string, string>): (r: map<string, string>)
    ensures !Remembered(local) ==> r == map[]
    ensures Remembered(local) ==> forall k :: k in UserKeys ==> k !in r
    ensures Remembered(local) ==> forall k :: k !in UserKeys ==>
      (k in r <==> k in local) && (k in r ==> r[k] == local[k])
  {
    if Remembered(local) then local - UserKeys else map[]
  }

  /** The remembered flag survives logout, so logging out again changes nothing. */
  lemma LogoutIdempotent(local: map<string, string>)
    ensures Remembered(LoggedOut(local)) == Remembered(local)
    ensures LoggedOut(LoggedOut(local)) == LoggedOut(local)
  {
  }

  // ---------------------------------------------------------------------
  // The dashboard page

  /** The page's state: the user record, both storages, the toasts, and the
      page a pending redirect goes to. */
  class Dashboard {
    var currentUser: User
    var session: map<string, string>
    var local: map<string, string>
    var redirect: Option<string>
    const header: Header
    const toasts: NotificationCenter

    ghost predicate Valid()
      reads this, toasts, header
    {
      toasts.Valid() && header.Valid()
    }

    constructor (session: map<string, string>, local: map<string, string>, header: Header, toasts: NotificationCenter)
      requires toasts.Valid() && header.Valid()
      ensures Valid()
      ensures this.session == session && this.local == local && this.header == header && this.toasts == toasts
      ensures redirect == None
    {
      currentUser := User("", "", "", "", "");
      this.session := session;
      this.local := local;
      redirect := None;
      this.header := header;
      this.toasts := toasts;
    }

    /** `checkAuthentication` at time `now`: a guest gets an error toast and
        is sent to the login page; anyone else is left alone. */
    method CheckAuthentication(now: int)
      requires Valid()
      modifies this, toasts
      ensures Valid()
      ensures currentUser == old(currentUser) && session == old(session) && local == old(local)
      ensures currentUser.role == "guest" ==>
        |toasts.toasts| == |old(toasts.toasts)| + 1 && toasts.toasts[..|old(toasts.toasts)|] == old(toasts.toasts)
        && toasts.toasts[|old(toasts.toasts)|].message == "Please login to access the dashboard"
        && toasts.toasts[|old(toasts.toasts)|].kind == Error
        && redirect == Some("login.html")
      ensures currentUser.role != "guest" ==> toasts.toasts == old(toasts.toasts) && redirect == old(redirect)
    {
      if currentUser.role == "guest" {
        var _ := toasts.Show("Please login to access the dashboard", "error", false, now);
        redirect := Some("login.html");
      }
    }

    /** `loadUserData` at time `now`: read the user from session storage,
        write the header, then run the guest check. */
    method LoadUserData(now: int)
      requires Valid()
      modifies this, toasts, header.Nodes()
      ensures Valid()
      ensures currentUser == UserFromSession(session)
      ensures session == old(session) && local == old(local)
      ensures forall n :: n in header.names ==> n.text == currentUser.name
      ensures forall n :: n in header.roles ==> n.text == Capitalize(currentUser.role)
      ensures forall n :: n in header.emails ==> n.text == currentUser.email
      ensures forall n :: n in header.ids ==> n.text == currentUser.id
      ensures header.title != null ==> header.title.text == Retitled(old(header.title.text), currentUser.role)
      ensures currentUser.role == "guest" ==>
        |toasts.toasts| == |old(toasts.toasts)| + 1 && toasts.toasts[..|old(toasts.toasts)|] == old(toasts.toasts)
        && toasts.toasts[|old(toasts.toasts)|].message == "Please login to access the dashboard"
        && toasts.toasts[|old(toasts.toasts)|].kind == Error
        && redirect == Some("login.html")
      ensures currentUser.role != "guest" ==> toasts.toasts == old(toasts.toasts) && redirect == old(redirect)
    {
      currentUser := UserFromSession(session);
      UpdateUserUI(header, currentUser);
      CheckAuthentication(now);
    }

    /** The confirmed branch of `logout` at time `now`: both storages are
        cleared as `LoggedOut` says, a success toast is shown and the page
        heads for the login page. */
    method Logout(now: int)
      requires Valid()
      modifies this, toasts
      ensures Valid()
      ensures session == map[] && local == LoggedOut(old(local))
      ensures currentUser == old(currentUser)
      ensures |toasts.toasts| == |old(toasts.toasts)| + 1
      ensures toasts.toasts[..|old(toasts.toasts)|] == old(toasts.toasts)
      ensures toasts.toasts[|old(toasts.toasts)|].message == "Logged out successfully"
      ensures toasts.toasts[|old(toasts.toasts)|].kind == Success
      ensures redirect == Some("login.html")
    {
      session := map[];
      local := LoggedOut(local);
      var _ := toasts.Show("Logged out successfully", "success", false, now);
      redirect := Some("login.html");
    }
  }
}
