/** What a user does with a button, and what it reports: short presses and long ones, on an unbounded clock. */
module OneButtonGestures {
  import opened OneButton

  /** The button after some ticks, and everything that it reported. */
  function Play(c: Config, b: Button, inputs: seq<Input>): (Button, seq<Event>)
    decreases |inputs|
  {
    if inputs == [] then (b, []) else
      var (n, out) := Tick(c, b, inputs[0].active, inputs[0].now, Since(inputs[0].now, b.start));
      var (end, more) := Play(c, n, inputs[1..]);
      (end, out + more)
  }

  function Since(now: nat, start: nat): nat {
    if now >= start then now - start else 0
  }

  function Reports(run: seq<seq<Event>>): seq<Event>
    decreases |run|
  {
    if run == [] then [] else run[0] + Reports(run[1..])
  }

  /** They are what a run reports, tick by tick. */
  lemma {:induction false} PlayIsRun(c: Config, b: Button, inputs: seq<Input>)
    ensures var (n, run) := RunUnbounded(c, b, inputs); Play(c, b, inputs) == (n, Reports(run))
    decreases |inputs|
  {
    hide Tick;
    if inputs != [] {
      var (n, out) := Tick(c, b, inputs[0].active, inputs[0].now, Since(inputs[0].now, b.start));
      PlayIsRun(c, n, inputs[1..]);
      var (end, more) := RunUnbounded(c, n, inputs[1..]);
      assert ([out] + more)[1..] == more;
    }
  }

  lemma {:induction false} PlayBoth(c: Config, b: Button, x: seq<Input>, y: seq<Input>)
    ensures var (n, out) := Play(c, b, x);
      var (end, more) := Play(c, n, y);
      Play(c, b, x + y) == (end, out + more)
    decreases |x|
  {
    hide Tick;
    if x == [] {
      assert x + y == y;
      assert [] + Play(c, b, y).1 == Play(c, b, y).1;
    } else {
      var (n, out) := Tick(c, b, x[0].active, x[0].now, Since(x[0].now, b.start));
      assert (x + y)[1..] == x[1..] + y;
      PlayBoth(c, n, x[1..], y);
      var (m, mid) := Play(c, n, x[1..]);
      assert out + (mid + Play(c, m, y).1) == (out + mid) + Play(c, m, y).1;
    }
  }

  /** A tick that changes and reports nothing, before others. */
  lemma QuietTick(c: Config, b: Button, inputs: seq<Input>)
    requires inputs != []
    requires Tick(c, b, inputs[0].active, inputs[0].now, Since(inputs[0].now, b.start)) == (b, [])
    ensures Play(c, b, inputs) == Play(c, b, inputs[1..])
  {
    assert [] + Play(c, b, inputs[1..]).1 == Play(c, b, inputs[1..]).1;
  }

  // ----- The level -----

  predicate AllActive(inputs: seq<Input>) {
    forall i :: 0 <= i < |inputs| ==> inputs[i].active
  }

  predicate AllInactive(inputs: seq<Input>) {
    forall i :: 0 <= i < |inputs| ==> !inputs[i].active
  }

  /** No tick is later than this. */
  predicate Until(inputs: seq<Input>, end: nat) {
    forall i :: 0 <= i < |inputs| ==> inputs[i].now <= end
  }

  predicate From(inputs: seq<Input>, begin: nat) {
    forall i :: 0 <= i < |inputs| ==> inputs[i].now >= begin
  }

  // ----- Short presses -----

  /** Held down, not for too long. */
  lemma {:induction false} Held(c: Config, b: Button, downs: seq<Input>)
    requires b.state == DOWN && AllActive(downs) && Until(downs, b.start + c.press)
    ensures Play(c, b, downs) == (b, [])
    decreases |downs|
  {
    if downs != [] {
      Held(c, b, downs[1..]);
      QuietTick(c, b, downs);
    }
  }

  /** Released, and not settled yet. */
  lemma {:induction false} Bouncing(c: Config, b: Button, ups: seq<Input>)
    requires b.state == UP && AllInactive(ups) && c.debounce > 0 && Until(ups, b.start + c.debounce - 1)
    ensures Play(c, b, ups) == (b, [])
    decreases |ups|
  {
    if ups != [] {
      Bouncing(c, b, ups[1..]);
      QuietTick(c, b, ups);
    }
  }

  /** Waiting whether there is one more press. */
  lemma {:induction false} Counting(c: Config, b: Button, ups: seq<Input>)
    requires b.state == COUNT && AllInactive(ups) && Until(ups, b.start + c.click) && b.clicks != c.maxClicks
    ensures Play(c, b, ups) == (b, [])
    decreases |ups|
  {
    if ups != [] {
      Counting(c, b, ups[1..]);
      QuietTick(c, b, ups);
    }
  }

  /** A short press: held for the debounce time at least, but not as a long press; then released
      until it has settled, but not for longer than the click time. */
  datatype Press = Press(
    down: Input, held: seq<Input>, up: Input, bounce: seq<Input>, settled: Input, pause: seq<Input>)

  predicate IsShort(c: Config, p: Press) {
    && p.down.active && AllActive(p.held) && Until(p.held, p.down.now + c.press)
    && !p.up.active && p.up.now >= p.down.now + c.debounce
    && AllInactive(p.bounce) && (p.bounce != [] ==> c.debounce > 0 && Until(p.bounce, p.up.now + c.debounce - 1))
    && !p.settled.active && p.settled.now >= p.up.now + c.debounce
    && AllInactive(p.pause) && Until(p.pause, p.up.now + c.click)
  }

  function Inputs(p: Press): seq<Input> {
    [p.down] + p.held + [p.up] + p.bounce + [p.settled] + p.pause
  }

  lemma OneTick(c: Config, b: Button, i: Input)
    ensures Play(c, b, [i]) == (Tick(c, b, i.active, i.now, Since(i.now, b.start)))
  {
    assert [i][1..] == [] && Play(c, Tick(c, b, i.active, i.now, Since(i.now, b.start)).0, []).1 == [];
    var out := Tick(c, b, i.active, i.now, Since(i.now, b.start)).1;
    assert out + [] == out;
  }

  /** A short press counts as one click and reports nothing yet. */
  lemma PressCounts(c: Config, b: Button, p: Press)
    requires (b.state == INIT || b.state == COUNT) && IsShort(c, p)
    requires (if b.state == INIT then 0 else b.clicks) + 1 != c.maxClicks
    ensures var (n, out) := Play(c, b, Inputs(p));
      && out == [] && n.state == COUNT && n.start == p.up.now
      && n.clicks == (if b.state == INIT then 1 else b.clicks + 1) && n.veryLong == b.veryLong
  {
    hide Play;
    OneTick(c, b, p.down);
    var b1 := Play(c, b, [p.down]).0;
    Held(c, b1, p.held);
    OneTick(c, b1, p.up);
    var b2 := Play(c, b1, [p.up]).0;
    if p.bounce == [] { NoInput(c, b2); } else { Bouncing(c, b2, p.bounce); }
    OneTick(c, b2, p.settled);
    var b3 := Play(c, b2, [p.settled]).0;
    Counting(c, b3, p.pause);
    PlayBoth(c, b, [p.down], p.held);
    PlayBoth(c, b, [p.down] + p.held, [p.up]);
    PlayBoth(c, b, [p.down] + p.held + [p.up], p.bounce);
    PlayBoth(c, b, [p.down] + p.held + [p.up] + p.bounce, [p.settled]);
    PlayBoth(c, b, [p.down] + p.held + [p.up] + p.bounce + [p.settled], p.pause);
  }

  lemma NoInput(c: Config, b: Button)
    ensures Play(c, b, []) == (b, [])
  {
  }

  function AllInputs(ps: seq<Press>): seq<Input> {
    if ps == [] then [] else AllInputs(ps[..|ps| - 1]) + Inputs(ps[|ps| - 1])
  }

  lemma {:induction false} PressesCount(c: Config, ps: seq<Press>)
    requires ps != [] && (forall i :: 0 <= i < |ps| ==> IsShort(c, ps[i])) && (c.maxClicks > |ps| || c.maxClicks < 1)
    ensures var (n, out) := Play(c, RESET, AllInputs(ps));
      out == [] && n.state == COUNT && n.clicks == |ps| && n.start == ps[|ps| - 1].up.now && !n.veryLong
    decreases |ps|
  {
    hide Play, IsShort;
    var init, last := ps[..|ps| - 1], ps[|ps| - 1];
    if init == [] {
      assert AllInputs(ps) == [] + Inputs(last) == Inputs(last);
      PressCounts(c, RESET, last);
    } else {
      PressesCount(c, init);
      PlayBoth(c, RESET, AllInputs(init), Inputs(last));
      PressCounts(c, Play(c, RESET, AllInputs(init)).0, last);
    }
  }

  /** Some short presses and then a pause longer than the click time are reported once, by their
      number, and the button is at rest. */
  lemma ClicksAreReported(c: Config, ps: seq<Press>, last: Input)
    requires ps != [] && (forall i :: 0 <= i < |ps| ==> IsShort(c, ps[i])) && (c.maxClicks > |ps| || c.maxClicks < 1)
    requires !last.active && last.now > ps[|ps| - 1].up.now + c.click
    ensures Play(c, RESET, AllInputs(ps) + [last])
      == (RESET, [if |ps| == 1 then Click else if |ps| == 2 then DoubleClick else MultiClick])
  {
    hide Play, IsShort;
    PressesCount(c, ps);
    PlayBoth(c, RESET, AllInputs(ps), [last]);
    OneTick(c, Play(c, RESET, AllInputs(ps)).0, last);
    var report := Play(c, Play(c, RESET, AllInputs(ps)).0, [last]).1;
    assert [] + report == report;
  }

  // ----- Long presses -----

  /** What a press that is held on reports at each tick. */
  function During(c: Config, start: nat, veryLong: bool, downs: seq<Input>): seq<Event>
    decreases |downs|
  {
    if downs == [] then []
    else if !veryLong && downs[0].now > start + c.veryLong then
      [VeryLongPressStart, DuringLongPress] + During(c, start, true, downs[1..])
    else [DuringLongPress] + During(c, start, veryLong, downs[1..])
  }

  lemma {:induction false} HeldOn(c: Config, b: Button, downs: seq<Input>)
    requires b.state == PRESS && AllActive(downs) && From(downs, b.start)
    ensures var (n, out) := Play(c, b, downs);
      out == During(c, b.start, b.veryLong, downs) && n == b.(veryLong := n.veryLong)
    decreases |downs|
  {
    if downs != [] {
      var n := Tick(c, b, true, downs[0].now, Since(downs[0].now, b.start)).0;
      HeldOn(c, n, downs[1..]);
    }
  }

  lemma {:induction false} Settling(c: Config, b: Button, ups: seq<Input>)
    requires b.state == PRESSEND && AllInactive(ups) && c.debounce > 0 && Until(ups, b.start + c.debounce - 1)
    ensures Play(c, b, ups) == (b, [])
    decreases |ups|
  {
    if ups != [] {
      Settling(c, b, ups[1..]);
      QuietTick(c, b, ups);
    }
  }

  lemma LongPressBegins(c: Config, down: Input, held: seq<Input>, long: Input)
    requires down.active && AllActive(held) && Until(held, down.now + c.press)
    requires long.active && long.now > down.now + c.press
    ensures var (n, out) := Play(c, RESET, [down] + held + [long]);
      out == [LongPressStart] && n.state == PRESS && n.start == down.now && !n.veryLong
  {
    hide Play;
    OneTick(c, RESET, down);
    var b := Play(c, RESET, [down]).0;
    Held(c, b, held);
    OneTick(c, b, long);
    PlayBoth(c, RESET, [down], held);
    PlayBoth(c, RESET, [down] + held, [long]);
  }

  lemma LongPressEnds(c: Config, b: Button, up: Input, bounce: seq<Input>, settled: Input)
    requires b.state == PRESS && !up.active && AllInactive(bounce) && !settled.active
    requires settled.now >= up.now + c.debounce
    requires bounce != [] ==> c.debounce > 0 && Until(bounce, up.now + c.debounce - 1)
    ensures Play(c, b, [up] + bounce + [settled]) == (RESET, [LongPressStop])
  {
    hide Play;
    OneTick(c, b, up);
    var n := Play(c, b, [up]).0;
    if bounce == [] { NoInput(c, n); } else { Settling(c, n, bounce); }
    OneTick(c, n, settled);
    PlayBoth(c, b, [up], bounce);
    PlayBoth(c, b, [up] + bounce, [settled]);
    var none: seq<Event> := [];
    assert none + none + [LongPressStop] == [LongPressStop];
  }

  /** A press beyond the press time is reported as a long one: its start, every tick while it is held
      on, once that it is very long, and its end when the release has settled. */
  lemma LongPressIsReported(c: Config, down: Input, held: seq<Input>, long: Input, on: seq<Input>, up: Input,
                            bounce: seq<Input>, settled: Input)
    requires down.active && AllActive(held) && Until(held, down.now + c.press)
    requires long.active && long.now > down.now + c.press && AllActive(on) && From(on, down.now)
    requires !up.active && AllInactive(bounce) && !settled.active && settled.now >= up.now + c.debounce
    requires bounce != [] ==> c.debounce > 0 && Until(bounce, up.now + c.debounce - 1)
    ensures Play(c, RESET, ([down] + held + [long]) + on + ([up] + bounce + [settled]))
      == (RESET, [LongPressStart] + During(c, down.now, false, on) + [LongPressStop])
  {
    hide Play;
    var begin, end := [down] + held + [long], [up] + bounce + [settled];
    LongPressBegins(c, down, held, long);
    var b := Play(c, RESET, begin).0;
    HeldOn(c, b, on);
    LongPressEnds(c, Play(c, b, on).0, up, bounce, settled);
    PlayBoth(c, RESET, begin, on);
    PlayBoth(c, RESET, begin + on, end);
  }

  // ----- Bouncing and the greatest number of clicks -----

  /** A contact shorter than the debounce time is no press, and a gap shorter than it is no release. */
  lemma BlipsAreIgnored(c: Config, b: Button, first: Input, second: Input)
    requires second.now >= first.now && second.now - first.now < c.debounce
    requires first.active != second.active
    ensures b.state == INIT && first.active ==>
      var (n, out) := Play(c, b, [first, second]); n.state == INIT && n.clicks == 0 && out == []
    ensures b.state == COUNT && first.active ==>
      var (n, out) := Play(c, b, [first, second]); n.state == COUNT && n.clicks == b.clicks && out == []
    ensures b.state == DOWN && !first.active && first.now >= b.start + c.debounce ==>
      var (n, out) := Play(c, b, [first, second]); n.state == DOWN && n.clicks == b.clicks && out == []
    ensures b.state == PRESS && !first.active ==>
      var (n, out) := Play(c, b, [first, second]); n.state == PRESS && n.veryLong == b.veryLong && out == []
  {
    assert [first] + [second] == [first, second];
    OneTick(c, b, first);
    var n := Play(c, b, [first]).0;
    OneTick(c, n, second);
    PlayBoth(c, b, [first], [second]);
  }

  /** With the greatest number of clicks there is no need to wait for more. */
  lemma LastClickIsReportedAtOnce(c: Config, b: Button, i: Input)
    requires b.state == COUNT && b.clicks == c.maxClicks && !i.active
    ensures Play(c, b, [i])
      == (RESET, [if b.clicks == 1 then Click else if b.clicks == 2 then DoubleClick else MultiClick])
  {
    OneTick(c, b, i);
  }

  /** A release that has settled counts, and ends a long press, even if there is contact again. */
  lemma SettledReleaseCounts(c: Config, b: Button, i: Input)
    requires i.now >= b.start + c.debounce
    ensures b.state == UP ==> var (n, out) := Play(c, b, [i]);
      n.state == COUNT && n.clicks == b.clicks + 1 && n.start == b.start && out == []
    ensures b.state == PRESSEND ==> Play(c, b, [i]) == (RESET, [LongPressStop])
  {
    OneTick(c, b, i);
  }

  /** A button at rest reports nothing without contact. */
  lemma {:induction false} NothingWithoutContact(c: Config, inputs: seq<Input>)
    requires AllInactive(inputs)
    ensures Play(c, RESET, inputs) == (RESET, [])
    decreases |inputs|
  {
    if inputs != [] {
      QuietTick(c, RESET, inputs);
      NothingWithoutContact(c, inputs[1..]);
    }
  }
}
