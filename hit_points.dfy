/**
 * The hit-point rules of the party overview: the segment bar drawn for each
 * member, and the new HP value that a click on a segment or on an HP button
 * asks the host to store. HP values are integers; nothing here clamps them.
 */
module HitPoints {
  import opened Wrappers

  /**
   * The length of the array `Array.from({ length: n }, ...)` builds: the
   * engine converts n with ToLength, so a negative length gives an empty array.
   */
  function ArrayLength(n: int): nat {
    if n < 0 then 0 else n
  }

  /**
   * JavaScript truthiness of `hp.effectiveMax`: a missing (undefined or null)
   * maximum and a maximum of 0 are falsy, every other integer is truthy.
   */
  predicate HasBar(effectiveMax: Option<int>) {
    effectiveMax.Some? && effectiveMax.value != 0
  }

  /**
   * The bar of a member: one segment per point of (non-negative) maximum HP,
   * filled below value, so no filled segment follows an empty one.
   */
  function BarSegments(effectiveMax: int, value: int): (r: seq<bool>)
    ensures |r| == ArrayLength(effectiveMax)
    ensures forall i, j :: 0 <= i < j < |r| && r[j] ==> r[i]
  {
    seq(ArrayLength(effectiveMax), i => i < value)
  }

  /** The number of filled segments in a bar. */
  function Filled(s: seq<bool>): nat {
    if s == [] then 0 else (if s[0] then 1 else 0) + Filled(s[1..])
  }

  /** n copies of b. */
  function Repeat(b: bool, n: nat): seq<bool> {
    seq(n, _ => b)
  }

  /** value clamped into [0, n]. */
  function Clamp(value: int, n: nat): (r: nat)
    ensures r <= n
    ensures 0 <= value <= n ==> r == value
  {
    if value < 0 then 0 else if value > n then n else value
  }

  /** Segment i of the bar is filled exactly when i < value. */
  lemma BarSegmentsShape(effectiveMax: int, value: int)
    ensures forall i :: 0 <= i < ArrayLength(effectiveMax) ==>
      (BarSegments(effectiveMax, value)[i] <==> i < value)
  {
  }

  /** The bar is a run of filled segments followed by a run of empty ones. */
  lemma FilledPrefix(effectiveMax: int, value: int)
    ensures var n := ArrayLength(effectiveMax);
      BarSegments(effectiveMax, value) == Repeat(true, Clamp(value, n)) + Repeat(false, n - Clamp(value, n))
  {
  }

  lemma {:induction false} FilledConcat(a: seq<bool>, b: seq<bool>)
    ensures Filled(a + b) == Filled(a) + Filled(b)
  {
    if a == [] {
      assert a + b == b;
    } else {
      assert (a + b)[1..] == a[1..] + b;
      FilledConcat(a[1..], b);
    }
  }

  lemma {:induction false} FilledRepeat(b: bool, n: nat)
    ensures Filled(Repeat(b, n)) == if b then n else 0
  {
    if n > 0 {
      assert Repeat(b, n)[1..] == Repeat(b, n - 1);
      FilledRepeat(b, n - 1);
    }
  }

  /** The bar shows min(max(value, 0), maximum) filled segments. */
  lemma FilledCount(effectiveMax: int, value: int)
    ensures Filled(BarSegments(effectiveMax, value)) == Clamp(value, ArrayLength(effectiveMax))
  {
    var n := ArrayLength(effectiveMax);
    var k := Clamp(value, n);
    FilledPrefix(effectiveMax, value);
    FilledConcat(Repeat(true, k), Repeat(false, n - k));
    FilledRepeat(true, k);
    FilledRepeat(false, n - k);
  }

  /**
   * The HP value a click on segment `index` asks for: clicking the last filled
   * segment empties it, clicking any other segment fills the bar up to and
   * including it. Every click changes the HP, and the new HP is index or
   * index + 1.
   */
  function ToggledHp(index: int, hp: int): (r: int)
    ensures r != hp
    ensures r == index || r == index + 1
  {
    if index + 1 == hp then hp - 1 else index + 1
  }

  /**
   * On the bar drawn after the click, every segment before the clicked one is
   * filled, every segment after it is empty, and the clicked one is filled
   * unless it was the last filled segment.
   */
  lemma ToggledBar(effectiveMax: int, index: int, hp: int)
    ensures forall j :: 0 <= j < ArrayLength(effectiveMax) ==>
      (BarSegments(effectiveMax, ToggledHp(index, hp))[j] <==> j < index || (j == index && hp != index + 1))
  {
  }

  /** The clicked segment changes state exactly when nothing after it was filled. */
  lemma ToggledSegmentFlips(effectiveMax: int, index: int, hp: int)
    requires 0 <= index < ArrayLength(effectiveMax)
    ensures BarSegments(effectiveMax, ToggledHp(index, hp))[index] != BarSegments(effectiveMax, hp)[index]
      <==> hp <= index + 1
  {
  }

  /**
   * Clicking the same segment twice ends on index + 1 when that was the HP
   * to start with, and on index otherwise.
   */
  lemma ToggleTwice(index: int, hp: int)
    ensures ToggledHp(index, ToggledHp(index, hp)) == if hp == index + 1 then hp else index
  {
  }

  /** So a double click restores the HP exactly when hp is index or index + 1. */
  lemma ToggleTwiceRestores(index: int, hp: int)
    ensures ToggledHp(index, ToggledHp(index, hp)) == hp <==> hp == index || hp == index + 1
  {
  }

  /** A double click on segment 2 of a bar at 5 HP leaves 2 HP, not 5. */
  lemma ToggleTwiceDoesNotRestore()
    ensures ToggledHp(2, ToggledHp(2, 5)) == 2
  {
  }

  /** The dataset mode that makes an HP button add instead of set. */
  const AddMode := "add"

  /**
   * The HP value an HP button asks for: in add mode the button's value is
   * added to the current HP, in any other mode (or none) it replaces it.
   */
  function SetHp(mode: Option<string>, value: int, hp: int): int {
    if mode == Some(AddMode) then hp + value else value
  }

  /** A press of an add button is undone by a press of the opposite add button. */
  lemma SetHpAddUndone(value: int, hp: int)
    ensures SetHp(Some(AddMode), -value, SetHp(Some(AddMode), value, hp)) == hp
  {
  }

  /** Pressing the same button twice is the same as pressing it once exactly for set buttons and for adding 0. */
  lemma SetHpIdempotent(mode: Option<string>, value: int, hp: int)
    ensures SetHp(mode, value, SetHp(mode, value, hp)) == SetHp(mode, value, hp) <==> mode != Some(AddMode) || value == 0
  {
  }

  /** Nothing clamps: an addition can go below 0, a set can go above the maximum. */
  lemma SetHpUnclamped(hp: int, effectiveMax: int)
    ensures SetHp(Some(AddMode), -(hp + 1), hp) < 0
    ensures SetHp(None, effectiveMax + 1, hp) > effectiveMax
  {
  }
}
