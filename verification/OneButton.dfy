/** A push button: a state machine that is ticked with the level of its pin and a wrapping clock. */
module OneButton {
  datatype ButtonState = INIT | DOWN | UP | COUNT | PRESS | PRESSEND

  datatype Event =
    | Click | DoubleClick | MultiClick | LongPressStart | DuringLongPress | VeryLongPressStart | LongPressStop

  datatype Config = Config(debounce: nat, click: nat, press: nat, veryLong: nat, maxClicks: int)

  datatype Button = Button(state: ButtonState, last: ButtonState, start: nat, clicks: nat, veryLong: bool)

  const RESET := Button(INIT, INIT, 0, 0, false)

  const CLOCK: nat := 0x1_0000_0000

  function NewState(b: Button, next: ButtonState): Button {
    b.(last := b.state, state := next)
  }

  function ClickEvent(clicks: nat): Event {
    if clicks == 1 then Click else if clicks == 2 then DoubleClick else MultiClick
  }

  /** One tick: the next state and the events it calls back. `wait` is the time since `start`. */
  function Tick(c: Config, b: Button, active: bool, now: nat, wait: nat): (Button, seq<Event>) {
    match b.state
    case INIT =>
      if active then (NewState(b, DOWN).(start := now, clicks := 0), []) else (b, [])
    case DOWN =>
      if !active && wait < c.debounce then (NewState(b, b.last), [])
      else if !active then (NewState(b, UP).(start := now), [])
      else if wait > c.press then (NewState(b, PRESS), [LongPressStart])
      else (b, [])
    case UP =>
      if active && wait < c.debounce then (NewState(b, b.last), [])
      else if wait >= c.debounce then (NewState(b, COUNT).(clicks := b.clicks + 1), [])
      else (b, [])
    case COUNT =>
      if active then (NewState(b, DOWN).(start := now), [])
      else if wait > c.click || b.clicks == c.maxClicks then (RESET, [ClickEvent(b.clicks)])
      else (b, [])
    case PRESS =>
      if !active then (NewState(b, PRESSEND).(start := now), [])
      else if !b.veryLong && wait > c.veryLong then (b.(veryLong := true), [VeryLongPressStart, DuringLongPress])
      else (b, [DuringLongPress])
    case PRESSEND =>
      if active && wait < c.debounce then (NewState(b, b.last), [])
      else if wait >= c.debounce then (RESET, [LongPressStop])
      else (b, [])
  }

  /** The difference of two readings of the 32-bit clock. */
  function Wait32(now: nat, start: nat): nat {
    (now - start) % CLOCK
  }

  // ----- Runs -----

  datatype Input = Input(active: bool, now: nat)

  /** The button after a run of ticks, and the events of each tick. */
  function Run(c: Config, b: Button, inputs: seq<Input>): (Button, seq<seq<Event>>)
    decreases |inputs|
  {
    if inputs == [] then (b, []) else
      var (n, out) := Tick(c, b, inputs[0].active, inputs[0].now, Wait32(inputs[0].now, b.start));
      var (end, more) := Run(c, n, inputs[1..]);
      (end, [out] + more)
  }

  /** Long presses as a reader of the events sees them. */
  datatype Press = Idle | Open(veryLong: bool) | Wrong

  function Follow(p: Press, e: Event): Press {
    match (p, e)
    case (Idle, LongPressStart) => Open(false)
    case (Open(false), VeryLongPressStart) => Open(true)
    case (Open(_), DuringLongPress) => p
    case (Open(_), LongPressStop) => Idle
    case (Idle, Click) => Idle
    case (Idle, DoubleClick) => Idle
    case (Idle, MultiClick) => Idle
    case _ => Wrong
  }

  function FollowAll(p: Press, events: seq<Event>): Press
    decreases |events|
  {
    if events == [] then p else FollowAll(Follow(p, events[0]), events[1..])
  }

  function FollowRun(p: Press, run: seq<seq<Event>>): Press
    decreases |run|
  {
    if run == [] then p else FollowRun(FollowAll(p, run[0]), run[1..])
  }

  /** What the state of the button means. */
  function PressOf(b: Button): Press {
    if b.state == PRESS || b.state == PRESSEND then Open(b.veryLong) else Idle
  }

  /** Bouncing leads back within the same press. */
  predicate Coherent(b: Button) {
    match b.state
    case INIT => !b.veryLong && b.clicks == 0
    case DOWN => !b.veryLong && (b.last == INIT || b.last == COUNT || b.last == UP)
      && (b.last == INIT ==> b.clicks == 0)
      && (b.last == COUNT ==> b.clicks > 0)
    case UP => !b.veryLong && b.last == DOWN
    case COUNT => !b.veryLong && b.clicks > 0
    case PRESS => true
    case PRESSEND => b.last == PRESS
  }

  lemma FollowOne(p: Press, e: Event)
    ensures FollowAll(p, [e]) == Follow(p, e)
    ensures forall f :: FollowAll(p, [e, f]) == Follow(Follow(p, e), f)
  {
    assert [e][1..] == [];
    forall f ensures FollowAll(p, [e, f]) == Follow(Follow(p, e), f) {
      assert [e, f][1..] == [f] && [f][1..] == [];
      assert FollowAll(Follow(p, e), [f]) == Follow(Follow(p, e), f);
    }
  }

  lemma TickFollows(c: Config, b: Button, active: bool, now: nat, wait: nat)
    requires Coherent(b)
    ensures var (n, out) := Tick(c, b, active, now, wait);
      Coherent(n) && FollowAll(PressOf(b), out) == PressOf(n)
  {
    var (n, out) := Tick(c, b, active, now, wait);
    if out != [] { FollowOne(PressOf(b), out[0]); }
    if |out| == 2 { assert out == [VeryLongPressStart, DuringLongPress]; }
  }

  /** Over all runs of ticks long presses start and stop in turn, a very long press is reported
      at most once in between, and no click is reported while a press is open. */
  lemma {:induction false} PressesAlternate(c: Config, b: Button, inputs: seq<Input>)
    requires Coherent(b)
    ensures var (n, run) := Run(c, b, inputs);
      Coherent(n) && FollowRun(PressOf(b), run) == PressOf(n) && PressOf(n) != Wrong
    decreases |inputs|
  {
    if inputs != [] {
      TickFollows(c, b, inputs[0].active, inputs[0].now, Wait32(inputs[0].now, b.start));
      var (n, out) := Tick(c, b, inputs[0].active, inputs[0].now, Wait32(inputs[0].now, b.start));
      PressesAlternate(c, n, inputs[1..]);
      var (end, more) := Run(c, n, inputs[1..]);
      assert ([out] + more)[1..] == more;
    }
  }

  // ----- Resets and clicks -----

  /** The events that end a sequence of clicks or a long press. */
  predicate Ends(e: Event) {
    e == Click || e == DoubleClick || e == MultiClick || e == LongPressStop
  }

  /** A tick resets the button exactly when it reports the end of something, and then that is
      the only event. Only a reset brings the button to rest, or bouncing of its first press. */
  lemma ResetReportsOneEnd(c: Config, b: Button, active: bool, now: nat, wait: nat)
    requires Coherent(b)
    ensures var (n, out) := Tick(c, b, active, now, wait);
      && ((exists e :: e in out && Ends(e)) <==> |out| == 1 && Ends(out[0]))
      && (|out| == 1 && Ends(out[0]) ==> n == RESET)
      && (n.state == INIT && b.state != INIT ==>
          (|out| == 1 && Ends(out[0])) || (b.state == DOWN && b.last == INIT && out == []))
  {
    var (n, out) := Tick(c, b, active, now, wait);
    assert forall e :: e in out ==> e == out[0] || e == out[|out| - 1];
    assert out != [] ==> out[0] in out;
  }

  /** How often a run went from UP to COUNT since the last reset. */
  function Counted(c: Config, b: Button, k: nat, inputs: seq<Input>): nat
    decreases |inputs|
  {
    if inputs == [] then k else
      var (n, out) := Tick(c, b, inputs[0].active, inputs[0].now, Wait32(inputs[0].now, b.start));
      var more := if |out| == 1 && Ends(out[0]) then 0 else if b.state == UP && n.state == COUNT then k + 1 else k;
      Counted(c, n, more, inputs[1..])
  }

  /** The kind of a click is the number of short presses since the last reset. */
  lemma {:induction false} ClicksAreCounted(c: Config, b: Button, inputs: seq<Input>)
    requires Coherent(b)
    ensures Counted(c, b, b.clicks, inputs) == Run(c, b, inputs).0.clicks
    decreases |inputs|
  {
    if inputs != [] {
      var (n, out) := Tick(c, b, inputs[0].active, inputs[0].now, Wait32(inputs[0].now, b.start));
      TickFollows(c, b, inputs[0].active, inputs[0].now, Wait32(inputs[0].now, b.start));
      ClicksAreCounted(c, n, inputs[1..]);
    }
  }

  lemma ClickKind(c: Config, inputs: seq<Input>, active: bool, now: nat, wait: nat)
    ensures var b := Run(c, RESET, inputs).0;
      var k := Counted(c, RESET, 0, inputs);
      forall e :: e in Tick(c, b, active, now, wait).1 && Ends(e) && e != LongPressStop ==>
        k > 0 && e == (if k == 1 then Click else if k == 2 then DoubleClick else MultiClick)
  {
    PressesAlternate(c, RESET, inputs);
    ClicksAreCounted(c, RESET, inputs);
  }

  // ----- The wrapping clock -----

  /** The same run on a clock that never wraps. */
  function RunUnbounded(c: Config, b: Button, inputs: seq<Input>): (Button, seq<seq<Event>>)
    decreases |inputs|
  {
    if inputs == [] then (b, []) else
      var i := inputs[0];
      var (n, out) := Tick(c, b, i.active, i.now, if i.now >= b.start then i.now - b.start else 0);
      var (end, more) := RunUnbounded(c, n, inputs[1..]);
      (end, [out] + more)
  }

  /** Every wait of the run is shorter than a turn of the clock. At rest nothing is waited for. */
  ghost predicate ShortWaits(c: Config, b: Button, inputs: seq<Input>)
    decreases |inputs|
  {
    inputs == [] || (
      var i := inputs[0];
      (b.state != INIT ==> b.start <= i.now < b.start + CLOCK)
      && ShortWaits(c, Tick(c, b, i.active, i.now, if i.now >= b.start then i.now - b.start else 0).0, inputs[1..]))
  }

  function Wrapped(b: Button): Button {
    b.(start := b.start % CLOCK)
  }

  function WrappedInputs(inputs: seq<Input>): (r: seq<Input>)
    ensures |r| == |inputs|
    decreases |inputs|
  {
    if inputs == [] then [] else [inputs[0].(now := inputs[0].now % CLOCK)] + WrappedInputs(inputs[1..])
  }

  lemma WaitIsSame(now: nat, start: nat)
    requires start <= now < start + CLOCK
    ensures Wait32(now % CLOCK, start % CLOCK) == now - start
  {
    var d := now - start;
    assert now == CLOCK * (now / CLOCK) + now % CLOCK && start == CLOCK * (start / CLOCK) + start % CLOCK;
    var q := now / CLOCK - start / CLOCK;
    assert now % CLOCK - start % CLOCK == d - CLOCK * q;
    assert q == 0 || q == 1;
  }

  lemma TickWrapped(c: Config, b: Button, active: bool, now: nat, wait: nat)
    ensures var (n, out) := Tick(c, b, active, now, wait);
      Tick(c, Wrapped(b), active, now % CLOCK, wait) == (Wrapped(n), out)
  {
  }

  lemma RestIgnoresWait(c: Config, b: Button, active: bool, now: nat, v: nat, w: nat)
    requires b.state == INIT
    ensures Tick(c, b, active, now, v) == Tick(c, b, active, now, w)
  {
  }

  /** A wrapping clock gives the same events as an unbounded one while every wait is shorter
      than its turn. */
  lemma {:induction false} WrappingIsHarmless(c: Config, b: Button, inputs: seq<Input>)
    requires ShortWaits(c, b, inputs)
    ensures var (n, run) := RunUnbounded(c, b, inputs);
      Run(c, Wrapped(b), WrappedInputs(inputs)) == (Wrapped(n), run)
    decreases |inputs|
  {
    hide Tick;
    if inputs != [] {
      var i := inputs[0];
      var wait := if i.now >= b.start then i.now - b.start else 0;
      var wait32 := Wait32(i.now % CLOCK, b.start % CLOCK);
      TickWrapped(c, b, i.active, i.now, wait);
      if b.state == INIT {
        RestIgnoresWait(c, Wrapped(b), i.active, i.now % CLOCK, wait, wait32);
      } else {
        WaitIsSame(i.now, b.start);
      }
      var n := Tick(c, b, i.active, i.now, wait).0;
      WrappingIsHarmless(c, n, inputs[1..]);
      assert WrappedInputs(inputs)[1..] == WrappedInputs(inputs[1..]);
    }
  }

  // ----- The button -----

  class PushButton {
    const config: Config
    var state: ButtonState
    var last: ButtonState
    var start: nat
    var clicks: nat
    var veryLong: bool
    var events: seq<Event>

    function View(): Button
      reads this
    {
      Button(state, last, start, clicks, veryLong)
    }

    constructor (config: Config)
      ensures View() == RESET && events == [] && this.config == config
    {
      this.config := config;
      state, last, start, clicks, veryLong, events := INIT, INIT, 0, 0, false, [];
    }

    method Reset()
      modifies this`state, this`last, this`start, this`clicks, this`veryLong
      ensures View() == RESET
    {
      state, last, clicks, start, veryLong := INIT, INIT, 0, 0, false;
    }

    method Enter(next: ButtonState)
      modifies this`state, this`last
      ensures View() == NewState(old(View()), next)
    {
      last := state;
      state := next;
    }

    /** `now` is a reading of the 32-bit millisecond clock. */
    method DoTick(active: bool, now: nat)
      modifies this
      ensures var (b, out) := Tick(config, old(View()), active, now, Wait32(now, old(start)));
        View() == b && events == old(events) + out
      ensures Coherent(old(View())) ==>
        Coherent(View()) && FollowAll(PressOf(old(View())), events[|old(events)|..]) == PressOf(View())
    {
      hide Coherent, FollowAll, PressOf;
      if Coherent(View()) { TickFollows(config, View(), active, now, Wait32(now, start)); }
      var wait := Wait32(now, start);
      ghost var before := events;
      match state
      case INIT =>
        if active {
          Enter(DOWN);
          start := now;
          clicks := 0;
        }
      case DOWN =>
        if !active && wait < config.debounce {
          Enter(last);
        } else if !active {
          Enter(UP);
          start := now;
        } else if active && wait > config.press {
          events := events + [LongPressStart];
          Enter(PRESS);
        }
      case UP =>
        if active && wait < config.debounce {
          Enter(last);
        } else if wait >= config.debounce {
          clicks := clicks + 1;
          Enter(COUNT);
        }
      case COUNT =>
        if active {
          Enter(DOWN);
          start := now;
        } else if wait > config.click || clicks == config.maxClicks {
          if clicks == 1 {
            events := events + [Click];
          } else if clicks == 2 {
            events := events + [DoubleClick];
          } else {
            events := events + [MultiClick];
          }
          Reset();
        }
      case PRESS =>
        if !active {
          Enter(PRESSEND);
          start := now;
        } else {
          if !veryLong && wait > config.veryLong {
            veryLong := true;
            events := events + [VeryLongPressStart];
          }
          events := events + [DuringLongPress];
          assert events == before + [VeryLongPressStart, DuringLongPress] || events == before + [DuringLongPress];
        }
      case PRESSEND =>
        if active && wait < config.debounce {
          Enter(last);
        } else if wait >= config.debounce {
          events := events + [LongPressStop];
          Reset();
        }
      assert before + [] == before;
    }
  }
}
