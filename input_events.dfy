/**
 * The window events the input layer consumes and the value-level meaning of
 * its state: a bank of switches (the 101 keyboard keys or the 5 mouse
 * buttons) as they are now and as they were at the last `update`.
 *
 * Both copies of the input layer, the current one and the older one with the
 * shorter method names, are proved against these definitions.
 */
module InputEvents {
  import opened Wrappers

  /** Number of keys SFML defines; `Key::Unknown` is -1 and lies outside the table. */
  const KeyCount := 101
  const ButtonCount := 5
  const Unknown := -1

  const Escape: Key := 36
  const Enter: Key := 58
  const Left: Key := 71
  const Right: Key := 72
  const Up: Key := 73
  const Down: Key := 74

  /** The code a key event carries, `Unknown` included. */
  type KeyCode = c: int | Unknown <= c < KeyCount

  /** A key the tables can be indexed with. */
  type Key = k: int | 0 <= k < KeyCount

  type Button = b: int | 0 <= b < ButtonCount

  type I32 = x: int | -0x8000_0000 <= x < 0x8000_0000

  datatype Event =
    | KeyPressed(code: KeyCode)
    | KeyReleased(code: KeyCode)
    | MouseButtonPressed(button: Button)
    | MouseButtonReleased(button: Button)
    | MouseMoved(x: I32, y: I32)
    | OtherEvent

  datatype Bank = KeyBank | ButtonBank

  function Size(bank: Bank): nat {
    if bank == KeyBank then KeyCount else ButtonCount
  }

  /**
   * The switch an event sets (true) or clears (false) in a bank. Key events
   * with the Unknown code and events of the other device change nothing.
   */
  function Change(bank: Bank, e: Event): (r: Option<(nat, bool)>)
    ensures r.Some? ==> r.value.0 < Size(bank)
    ensures bank == KeyBank && r.Some? ==> e.KeyPressed? || e.KeyReleased?
    ensures bank == ButtonBank && r.Some? ==> e.MouseButtonPressed? || e.MouseButtonReleased?
    ensures (e.MouseMoved? || e.OtherEvent?) ==> r.None?
  {
    match e
    case KeyPressed(c) => if bank == KeyBank && c != Unknown then Some((c as nat, true)) else None
    case KeyReleased(c) => if bank == KeyBank && c != Unknown then Some((c as nat, false)) else None
    case MouseButtonPressed(b) => if bank == ButtonBank then Some((b as nat, true)) else None
    case MouseButtonReleased(b) => if bank == ButtonBank then Some((b as nat, false)) else None
    case MouseMoved(_, _) => None
    case OtherEvent => None
  }

  /** A bank of switches: as they are now, and as they were at the last update. */
  datatype Switches = Switches(now: seq<bool>, ctrl: seq<bool>)
  {
    predicate Sized(n: nat) {
      |now| == n && |ctrl| == n
    }

    predicate Down(i: nat)
      requires i < |now|
    {
      now[i]
    }

    predicate Up(i: nat)
      requires i < |now|
    {
      !now[i]
    }

    /** Down now and up at the last update. */
    predicate Pressed(i: nat)
      requires i < |now| && i < |ctrl|
    {
      now[i] && !ctrl[i]
    }

    /** Up now and down at the last update. */
    predicate Released(i: nat)
      requires i < |now| && i < |ctrl|
    {
      !now[i] && ctrl[i]
    }

    /** What `update` does: the control copy becomes the current state. */
    function Latch(): (r: Switches)
      ensures r.now == now && r.ctrl == now
    {
      Switches(now, now)
    }
  }

  function AllUp(n: nat): (s: Switches)
    ensures s.Sized(n)
    ensures forall i :: 0 <= i < n ==> !s.now[i] && !s.ctrl[i]
  {
    Switches(seq(n, _ => false), seq(n, _ => false))
  }

  /** The effect of one event on a bank: the switch it names, and only that one, changes; the control copy never does. */
  function Step(bank: Bank, s: Switches, e: Event): (r: Switches)
    requires |s.now| == Size(bank)
    ensures r.ctrl == s.ctrl && |r.now| == |s.now|
    ensures Change(bank, e).None? ==> r == s
    ensures Change(bank, e).Some? ==>
      r.now[Change(bank, e).value.0] == Change(bank, e).value.1 &&
      forall j :: 0 <= j < |s.now| && j != Change(bank, e).value.0 ==> r.now[j] == s.now[j]
  {
    match Change(bank, e)
    case None => s
    case Some((i, v)) => Switches(s.now[i := v], s.ctrl)
  }

  /** The mouse position after an event: only `MouseMoved` changes it. */
  function Position(p: (I32, I32), e: Event): (r: (I32, I32))
    ensures e.MouseMoved? ==> r == (e.x, e.y)
    ensures !e.MouseMoved? ==> r == p
  {
    if e.MouseMoved? then (e.x, e.y) else p
  }

  /** A frame's events delivered one after another. */
  function Feed(bank: Bank, s: Switches, es: seq<Event>): (r: Switches)
    requires |s.now| == Size(bank)
    ensures r.ctrl == s.ctrl && |r.now| == |s.now|
    decreases |es|
  {
    if |es| == 0 then s else Step(bank, Feed(bank, s, es[..|es| - 1]), es[|es| - 1])
  }

  /** The value the last event touching switch i gave it, if any event did. */
  function LastChange(bank: Bank, es: seq<Event>, i: nat): Option<bool>
    decreases |es|
  {
    if |es| == 0 then None
    else
      var c := Change(bank, es[|es| - 1]);
      if c.Some? && c.value.0 == i then Some(c.value.1) else LastChange(bank, es[..|es| - 1], i)
  }

  /** After a sequence of events, each switch holds the value its last event gave it, or its old value if none touched it. */
  lemma {:induction false} FeedIsLastChange(bank: Bank, s: Switches, es: seq<Event>, i: nat)
    requires |s.now| == Size(bank) && i < Size(bank)
    ensures Feed(bank, s, es).now[i] == match LastChange(bank, es, i) case Some(v) => v case None => s.now[i]
    decreases |es|
  {
    if |es| > 0 {
      FeedIsLastChange(bank, s, es[..|es| - 1], i);
    }
  }

  /**
   * Between two updates, a switch reads as pressed exactly when it was up at
   * the update and the last event touching it pressed it, and as released
   * exactly when it was down and the last such event released it.
   */
  lemma EdgesSinceUpdate(bank: Bank, s: Switches, es: seq<Event>, i: nat)
    requires s.Sized(Size(bank)) && i < Size(bank)
    ensures Feed(bank, s.Latch(), es).Pressed(i) <==> !s.now[i] && LastChange(bank, es, i) == Some(true)
    ensures Feed(bank, s.Latch(), es).Released(i) <==> s.now[i] && LastChange(bank, es, i) == Some(false)
  {
    FeedIsLastChange(bank, s.Latch(), es, i);
  }

  /** Pressed and released are never both true, and up is the negation of down. */
  lemma EdgesExclusive(s: Switches, i: nat)
    requires i < |s.now| && i < |s.ctrl|
    ensures !(s.Pressed(i) && s.Released(i))
    ensures s.Up(i) <==> !s.Down(i)
    ensures s.Pressed(i) ==> s.Down(i)
    ensures s.Released(i) ==> s.Up(i)
  {
  }

  /** Right after an update no switch is pressed or released, and which ones are down is unchanged. */
  lemma LatchClearsEdges(s: Switches)
    requires |s.now| == |s.ctrl|
    ensures forall i :: 0 <= i < |s.now| ==>
      !s.Latch().Pressed(i) && !s.Latch().Released(i) && (s.Latch().Down(i) <==> s.Down(i))
  {
  }

  /** Events that name no switch of a bank (mouse events for the keyboard and so on) leave it as it is. */
  lemma {:induction false} ForeignEventsIgnored(bank: Bank, s: Switches, es: seq<Event>)
    requires |s.now| == Size(bank)
    requires forall k :: 0 <= k < |es| ==> Change(bank, es[k]).None?
    ensures Feed(bank, s, es) == s
    decreases |es|
  {
    if |es| > 0 {
      ForeignEventsIgnored(bank, s, es[..|es| - 1]);
    }
  }

  /** A key press followed by its release within one frame shows neither edge at the next query, if the key started up. */
  lemma TapWithinFrame(s: Switches, k: Key)
    requires s.Sized(KeyCount) && !s.now[k]
    ensures !Feed(KeyBank, s.Latch(), [KeyPressed(k), KeyReleased(k)]).Pressed(k)
    ensures !Feed(KeyBank, s.Latch(), [KeyPressed(k), KeyReleased(k)]).Released(k)
    ensures Feed(KeyBank, s.Latch(), [KeyPressed(k)]).Pressed(k)
  {
    EdgesSinceUpdate(KeyBank, s, [KeyPressed(k), KeyReleased(k)], k);
    EdgesSinceUpdate(KeyBank, s, [KeyPressed(k)], k);
    assert [KeyPressed(k), KeyReleased(k)][..1] == [KeyPressed(k)];
  }

  /** An event with the Unknown code touches no key. */
  lemma UnknownKeyIgnored(s: Switches)
    requires |s.now| == KeyCount
    ensures Step(KeyBank, s, KeyPressed(Unknown)) == s
    ensures Step(KeyBank, s, KeyReleased(Unknown)) == s
  {
  }
}
