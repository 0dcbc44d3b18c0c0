/** The ArrowUp / ArrowDown shortcuts of the web view, which step the
    playback speed through the option values of the speed select box. */
module Presets {

  /** The option values of the speed select box, as the host page lists them. */
  const SpeedOptions: seq<real> := [0.25, 0.5, 1.0, 1.5, 2.0, 3.0, 4.0]

  predicate StrictlySorted(opts: seq<real>)
  {
    forall i, j :: 0 <= i < j < |opts| ==> opts[i] < opts[j]
  }

  /** `opts.findIndex(v => v >= speed)`. */
  function FindIndexAtLeast(opts: seq<real>, speed: real): (r: int)
    ensures -1 <= r < |opts|
    ensures r == -1 <==> forall i :: 0 <= i < |opts| ==> opts[i] < speed
    ensures r >= 0 ==> opts[r] >= speed && forall i :: 0 <= i < r ==> opts[i] < speed
  {
    if opts == [] then -1
    else if opts[0] >= speed then 0
    else
      var r := FindIndexAtLeast(opts[1..], speed);
      if r == -1 then -1 else r + 1
  }

  /** ArrowUp: the next option above `speed`, staying on the top one; a
      speed above every option wraps to the first. */
  function SpeedUp(opts: seq<real>, speed: real): (target: real)
    requires |opts| > 0
    ensures target in opts
  {
    var currentIdx := FindIndexAtLeast(opts, speed);
    if currentIdx == -1 then opts[0]
    else if opts[currentIdx] == speed then opts[if currentIdx + 1 < |opts| then currentIdx + 1 else |opts| - 1]
    else opts[currentIdx]
  }

  /** ArrowDown: the option before the first one at least `speed`, staying on
      the bottom one; a speed above every option goes to the first. Both
      branches of the source pick the same option. */
  function SpeedDown(opts: seq<real>, speed: real): (target: real)
    requires |opts| > 0
    ensures target in opts
  {
    var currentIdx := FindIndexAtLeast(opts, speed);
    if currentIdx == -1 then opts[0]
    else if opts[currentIdx] == speed then opts[if currentIdx > 0 then currentIdx - 1 else 0]
    else opts[if currentIdx > 0 then currentIdx - 1 else 0]
  }

  lemma SpeedOptionsSorted()
    ensures |SpeedOptions| > 0 && StrictlySorted(SpeedOptions)
  {
  }

  /** From the option at index `k`, ArrowUp moves to the next one and stays
      on the last; ArrowDown moves to the previous one and stays on the first. */
  lemma {:induction false} StepFromPreset(opts: seq<real>, k: nat)
    requires StrictlySorted(opts) && k < |opts|
    ensures SpeedUp(opts, opts[k]) == opts[if k + 1 < |opts| then k + 1 else k]
    ensures SpeedDown(opts, opts[k]) == opts[if k > 0 then k - 1 else 0]
  {
    var idx := FindIndexAtLeast(opts, opts[k]);
    assert idx == k;
  }

  /** A speed above every option goes to the smallest one, both ways. */
  lemma AboveAllGoesToSmallest(opts: seq<real>, speed: real)
    requires |opts| > 0 && forall i :: 0 <= i < |opts| ==> opts[i] < speed
    ensures SpeedUp(opts, speed) == opts[0] && SpeedDown(opts, speed) == opts[0]
  {
  }

  /** Up to the top option, ArrowUp picks the smallest option strictly above
      `speed`, or the top option when there is none. */
  lemma {:induction false} SpeedUpIsNextHigher(opts: seq<real>, speed: real)
    requires |opts| > 0 && StrictlySorted(opts) && speed <= opts[|opts| - 1]
    ensures var r := SpeedUp(opts, speed);
      if exists i :: 0 <= i < |opts| && opts[i] > speed
      then r > speed && forall i :: 0 <= i < |opts| && opts[i] > speed ==> r <= opts[i]
      else r == opts[|opts| - 1]
  {
    var idx := FindIndexAtLeast(opts, speed);
    var r := SpeedUp(opts, speed);
    if opts[idx] == speed && idx + 1 < |opts| {
      assert r == opts[idx + 1];
      forall i | 0 <= i < |opts| && opts[i] > speed
        ensures r <= opts[i]
      {
        assert i > idx;
      }
    } else if opts[idx] == speed {
      assert idx == |opts| - 1;
      forall i | 0 <= i < |opts|
        ensures opts[i] <= speed
      {
        if i < idx {
          assert opts[i] < opts[idx];
        }
      }
    } else {
      assert r == opts[idx] > speed;
    }
  }

  /** From the first option up, ArrowDown picks the largest option strictly
      below `speed`, or the first option when there is none. */
  lemma {:induction false} SpeedDownIsNextLower(opts: seq<real>, speed: real)
    requires |opts| > 0 && StrictlySorted(opts) && speed <= opts[|opts| - 1]
    ensures var r := SpeedDown(opts, speed);
      if exists i :: 0 <= i < |opts| && opts[i] < speed
      then r < speed && forall i :: 0 <= i < |opts| && opts[i] < speed ==> opts[i] <= r
      else r == opts[0]
  {
    var idx := FindIndexAtLeast(opts, speed);
    var r := SpeedDown(opts, speed);
    if idx > 0 {
      assert r == opts[idx - 1] < speed;
      forall i | 0 <= i < |opts| && opts[i] < speed
        ensures opts[i] <= r
      {
        assert i < idx;
      }
    } else {
      forall i | 0 <= i < |opts|
        ensures opts[i] >= speed
      {
        assert opts[0] <= opts[i];
      }
    }
  }
}
