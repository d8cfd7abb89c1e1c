/**
 * The evasive-button controller: the attempt counter, the cycling taunt on
 * the No button, the growing Yes button, the cooldown between flees, and the
 * bounded search for a new No position that keeps clear of the Yes button.
 * Randomness is replaced by a supplied stream of raw candidate positions,
 * the clock by a `now` argument, and live layout queries by a `Layout` value.
 */
module Evasion {
  import opened Geometry

  /** The taunts shown on the No button, in order. */
  const NoMessages: seq<string> := [
    "Think twice \U{1F914}",
    "Are you sure? \U{1F60F}",
    "Umm\U{2026} really? \U{1F440}",
    "Try again \U{1F60C}",
    "Not allowed \U{1F608}",
    "Bad choice \U{1F624}",
    "That button is suspicious\U{2026}",
    "You meant \U{2018}Yes\U{2019} \U{1F607}",
    "Nope nope nope \U{1F645}\U{200D}\U{2640}\U{FE0F}",
    "Reconsider! \U{1F97A}",
    "Final answer? \U{1F60F}",
    "Locking in\U{2026} NO? \U{1F928}",
    "This isn\U{2019}t KBC \U{1F62D}",
    "Nice try \U{1F61C}",
    "Come onnnn \U{1FAF6}",
    "Be honest \U{1F60C}",
    "You\U{2019}re chasing the wrong one \U{1F3C3}\U{200D}\U{2640}\U{FE0F}",
    "Still no? \U{1F633}",
    "Ok now it\U{2019}s personal \U{1F624}",
    "\U{1F602}",
    "YES is right there \U{1F449}",
    "Stoppppp \U{1F62D}",
    "Last LAST chance \U{1F607}",
    "Too late now \U{1F61C}"
  ]

  /** Viewports at most this wide use the mobile tuning. */
  const MobileMaxWidth: int := 480

  /** Minimum time between two unforced flees, in milliseconds. */
  function FleeCooldown(viewportWidth: int): (ms: int)
    ensures ms == 280 || ms == 420
    ensures ms == 280 <==> viewportWidth <= MobileMaxWidth
  {
    if viewportWidth <= MobileMaxWidth then 280 else 420
  }

  /** Position in `NoMessages` of the taunt shown after the `n`-th attempt. */
  function LabelIndex(n: nat): (i: nat)
    requires n >= 1
    ensures i < |NoMessages|
    ensures n <= |NoMessages| ==> i == n - 1
  {
    (n - 1) % |NoMessages|
  }

  /** The taunt shown after the `n`-th attempt. */
  function Label(n: nat): (m: string)
    requires n >= 1
    ensures n <= |NoMessages| ==> m == NoMessages[n - 1]
  {
    NoMessages[LabelIndex(n)]
  }

  /** The taunts repeat with the period of the list: attempt 25 shows the first one again. */
  lemma LabelPeriodic(n: nat)
    requires n >= 1
    ensures LabelIndex(n + |NoMessages|) == LabelIndex(n)
    ensures Label(n + |NoMessages|) == Label(n)
  {
  }

  lemma LabelWraps()
    ensures LabelIndex(1) == 0 && LabelIndex(|NoMessages|) == |NoMessages| - 1
    ensures LabelIndex(|NoMessages| + 1) == 0 && Label(|NoMessages| + 1) == NoMessages[0]
  {
    LabelPeriodic(1);
  }

  /** Two neighbouring taunts, the last and the first included, always differ. */
  lemma NeighbouringMessagesDiffer(i: nat)
    requires i < |NoMessages|
    ensures NoMessages[i] != NoMessages[(i + 1) % |NoMessages|]
  {
  }

  /** The label never freezes: every attempt shows a taunt different from the previous one. */
  lemma LabelChangesEveryAttempt(n: nat)
    requires n >= 1
    ensures Label(n + 1) != Label(n)
  {
  }

  /** Horizontal scale of the Yes button after `n` attempts: grows by 0.04 each time. */
  function ScaleX(n: nat): (s: real)
    ensures s >= 1.0
    ensures n > 0 ==> s > 1.0
  {
    1.0 + (n as real) * 0.04
  }

  /** Vertical scale of the Yes button after `n` attempts: grows by 0.013 each time. */
  function ScaleY(n: nat): (s: real)
    ensures 1.0 <= s <= ScaleX(n)
    ensures n > 0 ==> s > 1.0
  {
    1.0 + (n as real) * 0.013
  }

  /** Both scales start at 1, grow strictly with every attempt, and grow faster horizontally. */
  lemma ScaleGrowth(m: nat, n: nat)
    requires m < n
    ensures ScaleX(0) == 1.0 && ScaleY(0) == 1.0
    ensures ScaleX(m) < ScaleX(n) && ScaleY(m) < ScaleY(n)
    ensures ScaleX(n) - ScaleX(m) > ScaleY(n) - ScaleY(m)
  {
  }

  /** The values quoted for 15, 30 and 50 attempts. */
  lemma ScaleQuotedValues()
    ensures ScaleX(1) == 1.04
    ensures ScaleX(15) == 1.6 && ScaleY(15) == 1.195
    ensures ScaleX(30) == 2.2 && ScaleY(30) == 1.39
    ensures ScaleX(50) == 3.0 && ScaleY(50) == 1.65
  {
  }

  /** There is no cap: both scales eventually exceed any bound. */
  lemma ScaleUncapped(limit: real)
    ensures exists n: nat :: ScaleX(n) > limit && ScaleY(n) > limit
  {
    if limit < 1.0 {
      assert ScaleX(0) > limit && ScaleY(0) > limit;
    } else {
      var x := (limit - 1.0) * 77.0;
      var n: nat := x.Floor + 1;
      assert n as real > x;
      assert ScaleY(n) > limit;
      assert ScaleX(n) > limit;
    }
  }

  /** `fleeFrom`'s guards: the widget's screen is active and the cooldown has elapsed, or the flee is forced. */
  predicate FleeAllowed(valentineActive: bool, force: bool, now: int, lastFleeAt: int, cooldown: int)
    ensures FleeAllowed(valentineActive, force, now, lastFleeAt, cooldown) ==> valentineActive
    ensures valentineActive && force ==> FleeAllowed(valentineActive, force, now, lastFleeAt, cooldown)
    ensures valentineActive && now - lastFleeAt >= cooldown ==> FleeAllowed(valentineActive, force, now, lastFleeAt, cooldown)
    ensures !force && now - lastFleeAt < cooldown ==> !FleeAllowed(valentineActive, force, now, lastFleeAt, cooldown)
  {
    valentineActive && (force || now - lastFleeAt >= cooldown)
  }

  /** One call of `fleeFrom` while the widget's screen is active. */
  datatype Trigger = Trigger(now: int, force: bool)

  /**
   * The times at which a series of calls actually flees, starting from the
   * last flee time `last`: each flee moves `last` to its own time.
   */
  function FleeTimes(last: int, cooldown: int, calls: seq<Trigger>): (times: seq<int>)
    ensures |times| <= |calls|
    ensures forall t :: t in times ==> exists c :: c in calls && c.now == t
    decreases calls
  {
    if calls == [] then []
    else if FleeAllowed(true, calls[0].force, calls[0].now, last, cooldown) then
      [calls[0].now] + FleeTimes(calls[0].now, cooldown, calls[1..])
    else FleeTimes(last, cooldown, calls[1..])
  }

  /**
   * Without forced calls, flees are at least one cooldown apart, and the first
   * is at least one cooldown after the previous flee: at most one flee per window.
   */
  lemma {:induction false} UnforcedFleesAreSpaced(last: int, cooldown: int, calls: seq<Trigger>)
    requires forall i :: 0 <= i < |calls| ==> !calls[i].force
    ensures var times := FleeTimes(last, cooldown, calls);
            && (|times| > 0 ==> times[0] - last >= cooldown)
            && forall i :: 0 < i < |times| ==> times[i] - times[i - 1] >= cooldown
    decreases calls
  {
    if calls != [] {
      var rest := calls[1..];
      if FleeAllowed(true, calls[0].force, calls[0].now, last, cooldown) {
        UnforcedFleesAreSpaced(calls[0].now, cooldown, rest);
        var tail := FleeTimes(calls[0].now, cooldown, rest);
        var times := FleeTimes(last, cooldown, calls);
        assert times == [calls[0].now] + tail;
        forall i | 0 < i < |times|
          ensures times[i] - times[i - 1] >= cooldown
        {
          if i > 1 {
            assert times[i] == tail[i - 1] && times[i - 1] == tail[i - 2];
          }
        }
      } else {
        UnforcedFleesAreSpaced(last, cooldown, rest);
      }
    }
  }

  /** The last flee time after the flees `times`, starting from `last`. */
  function LastFleeTime(last: int, times: seq<int>): int
  {
    if times == [] then last else times[|times| - 1]
  }

  /** The first `i + 1` calls are the first `i` followed by call `i`. */
  lemma PrefixExtends(calls: seq<Trigger>, i: nat)
    requires i < |calls|
    ensures calls[..i + 1] == calls[..i] + [calls[i]]
  {
  }

  /** Appending one call to a series adds its flee, if it flees, after the earlier ones. */
  lemma {:induction false} FleeTimesAppend(last: int, cooldown: int, calls: seq<Trigger>, call: Trigger)
    ensures var before := FleeTimes(last, cooldown, calls);
            FleeTimes(last, cooldown, calls + [call]) ==
              before + (if FleeAllowed(true, call.force, call.now, LastFleeTime(last, before), cooldown) then [call.now] else [])
    decreases calls
  {
    if calls == [] {
      assert [] + [call] == [call];
    } else {
      assert (calls + [call])[0] == calls[0] && (calls + [call])[1..] == calls[1..] + [call];
      if FleeAllowed(true, calls[0].force, calls[0].now, last, cooldown) {
        FleeTimesAppend(calls[0].now, cooldown, calls[1..], call);
        var rest := FleeTimes(calls[0].now, cooldown, calls[1..]);
        assert LastFleeTime(last, [calls[0].now] + rest) == LastFleeTime(calls[0].now, rest);
      } else {
        FleeTimesAppend(last, cooldown, calls[1..], call);
      }
    }
  }

  /** A forced call always flees, whatever the time since the last flee. */
  lemma {:induction false} ForcedCallFlees(last: int, cooldown: int, calls: seq<Trigger>)
    requires calls != [] && calls[0].force
    ensures FleeTimes(last, cooldown, calls) == [calls[0].now] + FleeTimes(calls[0].now, cooldown, calls[1..])
  {
  }

  /** The retry loop examines at most this many candidates. */
  const MaxCandidates: nat := 10

  /** The `k`-th raw candidate clamped into the flee box (padding 12). */
  function Candidate(layout: Layout, draw: nat -> Point, k: nat): Point
  {
    ClampInto(draw(k), layout.container.Extent(), layout.no.Extent(), FleePadding)
  }

  predicate CandidateOverlaps(layout: Layout, draw: nat -> Point, k: nat)
  {
    Overlaps(Candidate(layout, draw, k), layout.no.Extent(), YesBounds(layout))
  }

  /** Where the search ends, and how many candidates it looked at. */
  datatype Outcome = Outcome(position: Point, examined: nat)

  /**
   * The search from candidate `k` on. It stops at the first candidate clear of
   * the Yes bounds, looks at no more than ten candidates, settles for the tenth
   * only when all before it overlap, and always ends inside the flee box.
   */
  function RetryFrom(layout: Layout, draw: nat -> Point, k: nat): (o: Outcome)
    requires k < MaxCandidates
    ensures k < o.examined <= MaxCandidates
    ensures o.position == Candidate(layout, draw, o.examined - 1)
    ensures forall j :: k <= j < o.examined - 1 ==> CandidateOverlaps(layout, draw, j)
    ensures !CandidateOverlaps(layout, draw, o.examined - 1) || o.examined == MaxCandidates
    decreases MaxCandidates - k
  {
    if !CandidateOverlaps(layout, draw, k) || k > 8 then Outcome(Candidate(layout, draw, k), k + 1)
    else RetryFrom(layout, draw, k + 1)
  }

  /**
   * One pass of the `do` body: clamp raw candidate `k` into the flee box and
   * test it against the Yes bounds, as `fleeFrom` writes it out.
   */
  method TryCandidate(layout: Layout, draw: nat -> Point, k: nat) returns (left: real, top: real, overlapsYes: bool)
    ensures Point(left, top) == Candidate(layout, draw, k)
    ensures overlapsYes <==> CandidateOverlaps(layout, draw, k)
  {
    var cont, no := layout.container, layout.no;
    var yesBounds := YesBounds(layout);
    var maxLeft := cont.width - no.width - FleePadding;
    var maxTop := cont.height - no.height - FleePadding;
    var raw := draw(k);
    left := Clamp(raw.x, FleePadding, Max(maxLeft, FleePadding));
    top := Clamp(raw.y, FleePadding, Max(maxTop, FleePadding));
    overlapsYes :=
      && left + no.width >= yesBounds.left
      && left <= yesBounds.right
      && top + no.height >= yesBounds.top
      && top <= yesBounds.bottom;
  }

  /**
   * The `do … while` search of `fleeFrom`. Its own loop condition
   * (`attempts < 10`) never ends the loop: the break at `attempts > 8` comes first.
   */
  method ChooseFleePosition(layout: Layout, draw: nat -> Point) returns (position: Point, examined: nat)
    ensures Outcome(position, examined) == RetryFrom(layout, draw, 0)
    ensures 1 <= examined <= MaxCandidates
    ensures position == Candidate(layout, draw, examined - 1)
    ensures forall j :: 0 <= j < examined - 1 ==> CandidateOverlaps(layout, draw, j)
    ensures !Overlaps(position, layout.no.Extent(), YesBounds(layout)) || examined == MaxCandidates
    ensures Inside(position, layout.container.Extent(), layout.no.Extent(), FleePadding)
  {
    var attempts := 0;
    while true
      invariant 0 <= attempts < MaxCandidates
      invariant RetryFrom(layout, draw, attempts) == RetryFrom(layout, draw, 0)
      decreases MaxCandidates - attempts
    {
      var left, top, overlapsYes := TryCandidate(layout, draw, attempts);
      if !overlapsYes || attempts > 8 {
        position, examined := Point(left, top), attempts + 1;
        assert Outcome(position, examined) == RetryFrom(layout, draw, attempts);
        return;
      }
      attempts := attempts + 1;
    }
  }


  /** Where the No button's `left`/`top` style currently puts it. */
  datatype Position = Unplaced | At(point: Point)

  class Controller {
    /** The cooldown chosen once, from the viewport width at setup. */
    const cooldown: int
    /** The No button's text as the markup has it. */
    const markupText: string
    var attempts: nat
    var lastFleeAt: int
    var noText: string
    var scaleX: real
    var scaleY: real
    var position: Position
    /** The times of all flees so far, oldest first. */
    ghost var history: seq<int>

    /** The Yes scale and the No label are functions of the attempt count. */
    ghost predicate Valid()
      reads this
    {
      && (cooldown == 280 || cooldown == 420)
      && scaleX == ScaleX(attempts)
      && scaleY == ScaleY(attempts)
      && noText == (if attempts == 0 then markupText else Label(attempts))
    }

    constructor (viewportWidth: int, markupText: string)
      ensures Valid()
      ensures cooldown == FleeCooldown(viewportWidth) && this.markupText == markupText
      ensures attempts == 0 && lastFleeAt == 0 && noText == markupText
      ensures scaleX == 1.0 && scaleY == 1.0 && position == Unplaced && history == []
    {
      cooldown := FleeCooldown(viewportWidth);
      this.markupText := markupText;
      attempts := 0;
      lastFleeAt := 0;
      noText := markupText;
      scaleX, scaleY := 1.0, 1.0;
      position := Unplaced;
      history := [];
    }

    /** The first layout pass: the preferred start, or the fallback when that overlaps. */
    method PlaceInitially(layout: Layout)
      requires Valid()
      modifies this
      ensures Valid()
      ensures position == At(InitialPosition(layout))
      ensures attempts == old(attempts) && lastFleeAt == old(lastFleeAt) && noText == old(noText)
      ensures scaleX == old(scaleX) && scaleY == old(scaleY) && history == old(history)
    {
      var cont := layout.container;
      var yesBounds := YesBounds(layout);
      var initialLeft := cont.width * 0.7;
      var initialTop := cont.height * 0.3;
      if && initialLeft + layout.no.width >= yesBounds.left
         && initialLeft <= yesBounds.right
         && initialTop + layout.no.height >= yesBounds.top
         && initialTop <= yesBounds.bottom
      {
        initialLeft := cont.width * 0.15;
        initialTop := cont.height * 0.6;
      }
      position := At(PlaceNoButton(Point(initialLeft, initialTop), layout));
    }

    /** One more attempt: the Yes button grows and the No button shows the next taunt. */
    method RegisterFlee()
      requires Valid()
      modifies this
      ensures Valid()
      ensures attempts == old(attempts) + 1
      ensures noText == Label(attempts) && scaleX == ScaleX(attempts) && scaleY == ScaleY(attempts)
      ensures lastFleeAt == old(lastFleeAt) && position == old(position) && history == old(history)
    {
      attempts := attempts + 1;
      scaleX := 1.0 + (attempts as real) * 0.04;
      scaleY := 1.0 + (attempts as real) * 0.013;
      var idx := (attempts - 1) % |NoMessages|;
      noText := NoMessages[idx];
    }

    /** The state after a flee that went ahead from `oldAttempts` attempts. */
    ghost predicate FledTo(oldAttempts: nat, oldHistory: seq<int>, now: int, layout: Layout, draw: nat -> Point)
      reads this
    {
      && lastFleeAt == now
      && history == oldHistory + [now]
      && attempts == oldAttempts + 1
      && position == At(RetryFrom(layout, draw, 0).position)
    }

    /**
     * `fleeFrom`: nothing happens unless the widget's screen is active and either
     * the flee is forced or the cooldown has elapsed; otherwise the time is
     * recorded, the No button moves to the searched position, and exactly one
     * attempt is registered.
     */
    method FleeFrom(valentineActive: bool, now: int, force: bool, layout: Layout, draw: nat -> Point)
      requires Valid()
      modifies this
      ensures Valid()
      ensures if FleeAllowed(valentineActive, force, now, old(lastFleeAt), cooldown)
              then FledTo(old(attempts), old(history), now, layout, draw)
              else unchanged(this)
    {
      if !valentineActive {
        return;
      }
      if !force && now - lastFleeAt < cooldown {
        return;
      }
      lastFleeAt := now;
      history := history + [now];
      var target, _ := ChooseFleePosition(layout, draw);
      position := At(target);
      RegisterFlee();
    }

    /** Mouse movement: an unforced flee when the pointer is within 140 px of the No button's centre. */
    method MouseMove(valentineActive: bool, px: real, py: real, now: int, layout: Layout, draw: nat -> Point)
      requires Valid()
      modifies this
      ensures Valid()
      ensures if FleeAllowed(valentineActive && Near(layout.no, px, py, MouseRadius), false, now, old(lastFleeAt), cooldown)
              then FledTo(old(attempts), old(history), now, layout, draw)
              else unchanged(this)
    {
      if !valentineActive {
        return;
      }
      if Near(layout.no, px, py, MouseRadius) {
        FleeFrom(valentineActive, now, false, layout, draw);
      }
    }

    /** Finger movement: an unforced flee when the first touch is within 160 px of the No button's centre. */
    method TouchMove(valentineActive: bool, touches: seq<Point>, now: int, layout: Layout, draw: nat -> Point)
      requires Valid()
      modifies this
      ensures Valid()
      ensures if |touches| > 0 && FleeAllowed(valentineActive && Near(layout.no, touches[0].x, touches[0].y, TouchRadius), false, now, old(lastFleeAt), cooldown)
              then FledTo(old(attempts), old(history), now, layout, draw)
              else unchanged(this)
    {
      if !valentineActive {
        return;
      }
      if |touches| == 0 {
        return;
      }
      var t := touches[0];
      if Near(layout.no, t.x, t.y, TouchRadius) {
        FleeFrom(valentineActive, now, false, layout, draw);
      }
    }

    /** A tap on the No button: a forced flee, when there is a touch point. */
    method TouchStart(valentineActive: bool, touches: seq<Point>, now: int, layout: Layout, draw: nat -> Point)
      requires Valid()
      modifies this
      ensures Valid()
      ensures if |touches| > 0 && valentineActive then FledTo(old(attempts), old(history), now, layout, draw) else unchanged(this)
    {
      if |touches| > 0 {
        FleeFrom(valentineActive, now, true, layout, draw);
      }
    }

    /**
     * A series of `fleeFrom` calls on the active screen against one layout: the
     * controller flees exactly at `FleeTimes`, so `UnforcedFleesAreSpaced` holds
     * of the times it records.
     */
    method FleeSeries(calls: seq<Trigger>, layout: Layout, draw: nat -> Point)
      requires Valid()
      modifies this
      ensures Valid()
      ensures var times := FleeTimes(old(lastFleeAt), cooldown, calls);
              && attempts == old(attempts) + |times|
              && lastFleeAt == LastFleeTime(old(lastFleeAt), times)
              && history == old(history) + times
              && position == (if times == [] then old(position) else At(RetryFrom(layout, draw, 0).position))
    {
      var i := 0;
      while i < |calls|
        invariant 0 <= i <= |calls|
        invariant Valid()
        invariant var fled := FleeTimes(old(lastFleeAt), cooldown, calls[..i]);
                  && attempts == old(attempts) + |fled|
                  && lastFleeAt == LastFleeTime(old(lastFleeAt), fled)
                  && history == old(history) + fled
                  && position == (if fled == [] then old(position) else At(RetryFrom(layout, draw, 0).position))
      {
        var call := calls[i];
        FleeTimesAppend(old(lastFleeAt), cooldown, calls[..i], call);
        PrefixExtends(calls, i);
        FleeFrom(true, call.now, call.force, layout, draw);
        i := i + 1;
      }
      assert calls[..i] == calls;
    }
  }

  /** Two unforced flees inside one cooldown window: only the first moves the button. */
  method CooldownScenario(layout: Layout, draw: nat -> Point)
  {
    var c := new Controller(1024, "No");
    c.FleeFrom(true, 1000, false, layout, draw);
    assert c.attempts == 1 && c.lastFleeAt == 1000 && c.noText == NoMessages[0];
    c.FleeFrom(true, 1300, false, layout, draw);
    assert c.attempts == 1 && c.lastFleeAt == 1000;
    c.FleeFrom(true, 1300, true, layout, draw);
    assert c.attempts == 2 && c.lastFleeAt == 1300 && c.noText == NoMessages[1];
    c.FleeFrom(false, 5000, true, layout, draw);
    assert c.attempts == 2;
  }
}
