/**
 * The screen navigator: a fixed, ordered list of screen names, an index
 * into it, and one "active" flag per screen. Exactly the screen at the
 * current index is active, provided the page has an element for it.
 */
module Screens {

  /** The screen names in navigation order; the terminal screen is last. */
  const Order: seq<string> := ["intro", "q1", "q2", "q3", "q4", "q5", "valentine", "final"]

  /** The index of the screen that holds the Yes/No widget. */
  const ValentineIndex: nat := 6

  /**
   * `Array.prototype.indexOf` on a list of names: the first position of `x`,
   * or -1 when `x` does not occur.
   */
  function IndexOf(s: seq<string>, x: string): (r: int)
    ensures -1 <= r < |s|
    ensures r == -1 <==> x !in s
    ensures 0 <= r ==> s[r] == x && forall j :: 0 <= j < r ==> s[j] != x
  {
    if s == [] then -1
    else if s[0] == x then 0
    else
      var i := IndexOf(s[1..], x);
      if i == -1 then -1 else i + 1
  }

  /** The name "final" is found at the last position of the order. */
  lemma FinalIsLast()
    ensures IndexOf(Order, "final") == |Order| - 1 == 7
  {
  }

  /** The number of set flags. */
  function CountTrue(flags: seq<bool>): nat
  {
    if flags == [] then 0 else (if flags[0] then 1 else 0) + CountTrue(flags[1..])
  }

  lemma {:induction false} CountTrueNone(flags: seq<bool>)
    requires forall k :: 0 <= k < |flags| ==> !flags[k]
    ensures CountTrue(flags) == 0
  {
    if flags != [] {
      CountTrueNone(flags[1..]);
    }
  }

  /** A flag list in which exactly position `i` is set has exactly one flag set. */
  lemma {:induction false} CountTrueSingle(flags: seq<bool>, i: int)
    requires 0 <= i < |flags|
    requires forall k :: 0 <= k < |flags| ==> (flags[k] <==> k == i)
    ensures CountTrue(flags) == 1
  {
    if i == 0 {
      CountTrueNone(flags[1..]);
    } else {
      CountTrueSingle(flags[1..], i - 1);
    }
  }

  class Navigator {
    /** The `data-screen` names of the `.screen` elements on the page (fixed at load). */
    const screenNames: set<string>
    var currentIndex: int
    var active: array<bool>

    /** The page has an element for the screen at `i`, and `i` is in range. */
    predicate HasScreen(i: int)
    {
      0 <= i < |Order| && Order[i] in screenNames
    }

    /** The active flags are exactly "this is the current screen and it exists". */
    ghost predicate Valid()
      reads this, active
    {
      && active.Length == |Order|
      && 0 <= currentIndex < |Order|
      && forall k :: 0 <= k < |Order| ==> (active[k] <==> k == currentIndex && HasScreen(k))
    }

    ghost function ActiveCount(): nat
      reads this, active
    {
      CountTrue(active[..])
    }

    /** Page load: the markup activates only the intro screen. */
    constructor (screenNames: set<string>)
      ensures Valid() && fresh(active)
      ensures this.screenNames == screenNames && currentIndex == 0
      ensures forall k :: 0 <= k < |Order| ==> (active[k] <==> k == 0 && Order[0] in screenNames)
    {
      this.screenNames := screenNames;
      currentIndex := 0;
      active := new bool[|Order|](k => k == 0 && Order[0] in screenNames);
    }

    /** The single active screen, when the current one exists. */
    lemma ExactlyOneActive()
      requires Valid() && HasScreen(currentIndex)
      ensures ActiveCount() == 1
    {
      CountTrueSingle(active[..], currentIndex);
    }

    /**
     * Activates the screen at `index` and deactivates the current one. An
     * index out of range, or one whose screen is missing, changes nothing.
     */
    method ShowScreenByIndex(index: int)
      requires Valid()
      modifies this, active
      ensures Valid() && active == old(active)
      ensures if HasScreen(index) then
                && currentIndex == index
                && (forall k :: 0 <= k < |Order| ==> (active[k] <==> k == index))
                && ActiveCount() == 1
              else
                currentIndex == old(currentIndex) && active[..] == old(active[..])
    {
      if index < 0 || index >= |Order| {
        return;
      }
      if Order[index] !in screenNames {
        return;
      }
      if Order[currentIndex] in screenNames {
        active[currentIndex] := false;
      }
      active[index] := true;
      currentIndex := index;
      ExactlyOneActive();
    }

    /** Advances to the next screen; a no-op on the last screen. */
    method GoNext()
      requires Valid()
      modifies this, active
      ensures Valid() && active == old(active)
      ensures old(currentIndex) == |Order| - 1 ==>
                currentIndex == old(currentIndex) && active[..] == old(active[..])
      ensures if HasScreen(old(currentIndex) + 1) then
                && currentIndex == old(currentIndex) + 1
                && (forall k :: 0 <= k < |Order| ==> (active[k] <==> k == currentIndex))
                && ActiveCount() == 1
              else
                currentIndex == old(currentIndex) && active[..] == old(active[..])
    {
      ShowScreenByIndex(currentIndex + 1);
    }

    /** The Yes button jumps straight to the terminal screen from anywhere. */
    method YesClick()
      requires Valid()
      modifies this, active
      ensures Valid() && active == old(active)
      ensures if "final" in screenNames then
                && currentIndex == |Order| - 1
                && (forall k :: 0 <= k < |Order| ==> (active[k] <==> k == |Order| - 1))
                && ActiveCount() == 1
              else
                currentIndex == old(currentIndex) && active[..] == old(active[..])
    {
      FinalIsLast();
      ShowScreenByIndex(IndexOf(Order, "final"));
    }

    /** Whether the screen holding the Yes/No widget carries the active flag. */
    function ValentineScreenActive(): (r: bool)
      reads this, active
      requires Valid()
      ensures r <==> currentIndex == ValentineIndex && "valentine" in screenNames
    {
      active[ValentineIndex]
    }
  }

  /** On a complete page: start, answer one question, then take the Yes shortcut; Next at the end does nothing. */
  method Walkthrough()
  {
    var nav := new Navigator(set k | 0 <= k < |Order| :: Order[k]);
    assert Order[1] in nav.screenNames && Order[2] in nav.screenNames;
    nav.GoNext();
    assert nav.currentIndex == 1;
    nav.GoNext();
    assert nav.currentIndex == 2;
    assert !nav.ValentineScreenActive();
    assert "final" in nav.screenNames by { assert Order[7] == "final"; }
    nav.YesClick();
    assert nav.currentIndex == 7;
    nav.GoNext();
    assert nav.currentIndex == 7;
  }
}
