/** The toast notifications of the shared page script: `showNotification`
    appends a toast, its close button or its own timer removes it, and a
    once-a-second sweep drops every non-persistent toast older than five
    seconds. The clock is a parameter (`now`, in milliseconds). */
module Notifications {
  import opened Wrappers

  datatype Kind = Info | Success | Error | Warning

  /** The `type` argument: the three named kinds, and `info` for anything else. */
  function KindOf(kindName: string): (k: Kind)
    ensures k == Success <==> kindName == "success"
    ensures k == Error <==> kindName == "error"
    ensures k == Warning <==> kindName == "warning"
    ensures k == Info <==> kindName !in {"success", "error", "warning"}
  {
    match kindName
    case "success" => Success
    case "error" => Error
    case "warning" => Warning
    case _ => Info
  }

  /** Icon and the three colour classes a toast of one kind is drawn with. */
  datatype Style = Style(icon: string, background: string, textColor: string, border: string)

  /** The background, text and border classes all name `colour`, in the
      light, dark and middle shades. */
  ghost predicate Tinted(st: Style, colour: string) {
    && st.background == "bg-" + colour + "-100"
    && st.textColor == "text-" + colour + "-800"
    && st.border == "border-" + colour + "-200"
  }

  /** The style with `icon` whose classes all use `colour`. */
  function Palette(icon: string, colour: string): (st: Style)
    ensures st.icon == icon && Tinted(st, colour)
  {
    Style(icon, "bg-" + colour + "-100", "text-" + colour + "-800", "border-" + colour + "-200")
  }

  /** The look of each kind. The three colour classes of a kind name one
      and the same colour. */
  function StyleOf(k: Kind): (st: Style)
    ensures exists colour :: Tinted(st, colour)
  {
    match k
    case Info => Palette("\U{2139}\U{FE0F}", "blue")
    case Success => Palette("\U{2705}", "green")
    case Error => Palette("\U{274C}", "red")
    case Warning => Palette("\U{26A0}\U{FE0F}", "yellow")
  }

  /** Each kind has an icon and colours of its own: a toast's look tells its kind. */
  lemma StylesDistinguishKinds(a: Kind, b: Kind)
    requires a != b
    ensures StyleOf(a).icon != StyleOf(b).icon
    ensures StyleOf(a).background != StyleOf(b).background
    ensures StyleOf(a).textColor != StyleOf(b).textColor
    ensures StyleOf(a).border != StyleOf(b).border
  {
    var sa, sb := StyleOf(a), StyleOf(b);
    assert sa.icon[0] != sb.icon[0];
    assert sa.background[3] != sb.background[3];
    assert sa.textColor[5] != sb.textColor[5];
    assert sa.border[7] != sb.border[7];
  }

  /** A toast on the page. `timestamp` is its `data-timestamp`; a toast that
      did not come from `showNotification` may lack one. */
  datatype Toast = Toast(id: nat, message: string, kind: Kind, persistent: bool, timestamp: Option<int>)

  /** Age in milliseconds beyond which the sweep removes a toast. */
  const AutoDismissMs := 5000

  /** The sweep removes a toast when it is not persistent, carries a
      timestamp, and is more than `AutoDismissMs` old. */
  predicate Expired(t: Toast, now: int)
    ensures Expired(t, now) ==> !t.persistent && t.timestamp.Some?
    ensures Expired(t, now) ==> t.timestamp.value < now
  {
    !t.persistent && t.timestamp.Some? && now - t.timestamp.value > AutoDismissMs
  }

  /** The toasts that one sweep at time `now` leaves, in their order. */
  function Survivors(ts: seq<Toast>, now: int): (r: seq<Toast>)
    ensures |r| <= |ts|
    ensures forall i :: 0 <= i < |r| ==> !Expired(r[i], now)
  {
    if ts == [] then []
    else
      var last := ts[|ts| - 1];
      Survivors(ts[..|ts| - 1], now) + (if Expired(last, now) then [] else [last])
  }

  /** A sweep keeps exactly the toasts that have not expired. */
  lemma {:induction false} SurvivorsExact(ts: seq<Toast>, now: int)
    ensures forall t :: t in Survivors(ts, now) <==> t in ts && !Expired(t, now)
  {
    if ts != [] {
      SurvivorsExact(ts[..|ts| - 1], now);
      assert ts == ts[..|ts| - 1] + [ts[|ts| - 1]];
    }
  }

  /** A second sweep at the same moment removes nothing more. */
  lemma {:induction false} SweepIdempotent(ts: seq<Toast>, now: int)
    ensures Survivors(Survivors(ts, now), now) == Survivors(ts, now)
  {
    if ts != [] {
      var init := ts[..|ts| - 1];
      SweepIdempotent(init, now);
      var last := ts[|ts| - 1];
      var s := Survivors(init, now);
      if !Expired(last, now) {
        var r := s + [last];
        assert r[..|r| - 1] == s;
        assert Survivors(r, now) == Survivors(s, now) + [last];
        assert Survivors(ts, now) == r;
      } else {
        assert Survivors(ts, now) == s;
      }
    }
  }

  /** Sweeping at `t1` and later at `t2` leaves what one sweep at `t2`
      leaves: expiry only grows with time. */
  lemma {:induction false} LaterSweepSubsumes(ts: seq<Toast>, t1: int, t2: int)
    requires t1 <= t2
    ensures Survivors(Survivors(ts, t1), t2) == Survivors(ts, t2)
  {
    if ts != [] {
      var init := ts[..|ts| - 1];
      LaterSweepSubsumes(init, t1, t2);
      var last := ts[|ts| - 1];
      var s := Survivors(init, t1);
      if !Expired(last, t1) {
        var r := s + [last];
        assert r[..|r| - 1] == s;
        assert Survivors(r, t2) == Survivors(s, t2) + (if Expired(last, t2) then [] else [last]);
        assert Survivors(ts, t1) == r;
      } else {
        assert Survivors(ts, t1) == s;
      }
      assert Survivors(ts, t2) == Survivors(init, t2) + (if Expired(last, t2) then [] else [last]);
    }
  }

  /** The toasts other than the one with identity `id`, in their order. */
  function Without(ts: seq<Toast>, id: nat): (r: seq<Toast>)
    ensures |r| <= |ts|
    ensures forall i :: 0 <= i < |r| ==> r[i].id != id
  {
    if ts == [] then []
    else Without(ts[..|ts| - 1], id) + (if ts[|ts| - 1].id == id then [] else [ts[|ts| - 1]])
  }

  /** Closing toast `id` removes that toast and keeps every other one. */
  lemma {:induction false} WithoutExact(ts: seq<Toast>, id: nat)
    ensures forall t :: t in Without(ts, id) <==> t in ts && t.id != id
  {
    if ts != [] {
      WithoutExact(ts[..|ts| - 1], id);
      assert ts == ts[..|ts| - 1] + [ts[|ts| - 1]];
    }
  }

  /** Closing a toast that is already gone changes nothing. */
  lemma {:induction false} DismissIdempotent(ts: seq<Toast>, id: nat)
    ensures Without(Without(ts, id), id) == Without(ts, id)
  {
    if ts != [] {
      var init := ts[..|ts| - 1];
      DismissIdempotent(init, id);
      var w := Without(init, id);
      if ts[|ts| - 1].id != id {
        var r := w + [ts[|ts| - 1]];
        assert r[..|r| - 1] == w;
        assert Without(r, id) == Without(w, id) + [ts[|ts| - 1]];
        assert Without(ts, id) == r;
      } else {
        assert Without(ts, id) == w;
      }
    }
  }

  /** The toasts attached to the page body, oldest first. */
  class NotificationCenter {
    var toasts: seq<Toast>
    var nextId: nat

    /** Every toast has an identity below `nextId`, so new ones are fresh. */
    ghost predicate Valid()
      reads this
    {
      forall i :: 0 <= i < |toasts| ==> toasts[i].id < nextId
    }

    constructor ()
      ensures Valid() && toasts == []
    {
      toasts := [];
      nextId := 0;
    }

    /** `showNotification(message, type, persistent)` at time `now`: one new
        toast, stamped with `now`, at the end of the body. */
    method Show(message: string, kindName: string, persistent: bool, now: int) returns (id: nat)
      requires Valid()
      modifies this
      ensures Valid()
      ensures toasts == old(toasts) + [Toast(id, message, KindOf(kindName), persistent, Some(now))]
      ensures forall t :: t in old(toasts) ==> t.id != id
    {
      id := nextId;
      toasts := toasts + [Toast(id, message, KindOf(kindName), persistent, Some(now))];
      nextId := nextId + 1;
    }

    /** The close button of toast `id`, and the removal that a non-persistent
        toast's own timer performs: the element goes if it is still there. */
    method Dismiss(id: nat)
      requires Valid()
      modifies this
      ensures Valid() && nextId == old(nextId)
      ensures toasts == Without(old(toasts), id)
    {
      WithoutExact(toasts, id);
      toasts := Without(toasts, id);
    }

    /** One tick of the sweep started by `initNotifications`. */
    method Sweep(now: int)
      requires Valid()
      modifies this
      ensures Valid() && nextId == old(nextId)
      ensures toasts == Survivors(old(toasts), now)
    {
      var kept: seq<Toast> := [];
      var i := 0;
      while i < |toasts|
        invariant 0 <= i <= |toasts|
        invariant kept == Survivors(toasts[..i], now)
      {
        assert toasts[..i + 1][..i] == toasts[..i];
        if !Expired(toasts[i], now) {
          kept := kept + [toasts[i]];
        }
        i := i + 1;
      }
      assert toasts[..i] == toasts;
      SurvivorsExact(toasts, now);
      forall k | 0 <= k < |kept|
        ensures kept[k].id < nextId
      {
        assert kept[k] in toasts;
      }
      toasts := kept;
    }
  }
}
