/** An animated property of a model node: keyframes of (time, value), read
  * by time with linear interpolation between the two keyframes around it.
  * Values are scalars here; the engine interpolates vectors and
  * quaternions the same way, component-wise or spherically. */
module Keyframes {
  import opened Wrappers
  import opened Sorting

  datatype Keyframe = Keyframe(time: real, value: real)

  datatype AnimatedProperty = AnimatedProperty(keyframes: seq<Keyframe>)

  const Empty := AnimatedProperty([])

  function GetNumKeyframes(p: AnimatedProperty): nat {
    |p.keyframes|
  }

  /** Appends a keyframe; keyframes are kept in insertion order until
    * `Update` sorts them. */
  function AddKeyframe(p: AnimatedProperty, time: real, value: real): (r: AnimatedProperty)
    ensures GetNumKeyframes(r) == GetNumKeyframes(p) + 1
    ensures r.keyframes[|p.keyframes|] == Keyframe(time, value)
    ensures r.keyframes[..|p.keyframes|] == p.keyframes
  {
    AnimatedProperty(p.keyframes + [Keyframe(time, value)])
  }

  /** Adds the keyframes one by one, in order. */
  function AddKeyframes(p: AnimatedProperty, frames: seq<Keyframe>): AnimatedProperty
    decreases |frames|
  {
    if frames == [] then p
    else AddKeyframes(AddKeyframe(p, frames[0].time, frames[0].value), frames[1..])
  }

  /** The number of keyframes is the number of keyframes ever added. */
  lemma {:induction false} AddKeyframesCount(p: AnimatedProperty, frames: seq<Keyframe>)
    ensures GetNumKeyframes(AddKeyframes(p, frames)) == GetNumKeyframes(p) + |frames|
    ensures AddKeyframes(p, frames).keyframes == p.keyframes + frames
    decreases |frames|
  {
    if frames != [] {
      var q := AddKeyframe(p, frames[0].time, frames[0].value);
      AddKeyframesCount(q, frames[1..]);
      assert q.keyframes + frames[1..] == p.keyframes + frames;
    }
  }

  predicate TimesSorted(frames: seq<Keyframe>) {
    forall i, j :: 0 <= i < j < |frames| ==> frames[i].time <= frames[j].time
  }

  predicate TimesIncreasing(frames: seq<Keyframe>) {
    forall i, j :: 0 <= i < j < |frames| ==> frames[i].time < frames[j].time
  }

  function ByTime(frames: seq<Keyframe>): (r: seq<Keyed<Keyframe>>)
    ensures |r| == |frames|
    ensures forall i :: 0 <= i < |r| ==> r[i] == Keyed(Key(0, frames[i].time), frames[i])
    ensures Items(r) == frames
  {
    seq(|frames|, i requires 0 <= i < |frames| => Keyed(Key(0, frames[i].time), frames[i]))
  }

  /** Sorts the keyframes by time. */
  function Update(p: AnimatedProperty): (r: AnimatedProperty)
    ensures TimesSorted(r.keyframes)
    ensures multiset(r.keyframes) == multiset(p.keyframes)
    ensures GetNumKeyframes(r) == GetNumKeyframes(p)
  {
    var keyed := ByTime(p.keyframes);
    var sorted := SortByKey(keyed);
    UpdateFacts(keyed, sorted);
    ItemsOfSort(keyed);
    AnimatedProperty(Items(sorted))
  }

  lemma UpdateFacts(keyed: seq<Keyed<Keyframe>>, sorted: seq<Keyed<Keyframe>>)
    requires forall i :: 0 <= i < |keyed| ==> keyed[i].key == Key(0, keyed[i].item.time)
    requires sorted == SortByKey(keyed)
    ensures TimesSorted(Items(sorted))
  {
    var items := Items(sorted);
    forall i, j | 0 <= i < j < |items| ensures items[i].time <= items[j].time {
      SortMember(keyed, i);
      SortMember(keyed, j);
      var a :| 0 <= a < |keyed| && keyed[a] == sorted[i];
      var b :| 0 <= b < |keyed| && keyed[b] == sorted[j];
      assert KeyLe(sorted[i].key, sorted[j].key);
    }
  }

  /** The index of the first keyframe at or after `time`, if any. */
  function FirstAtOrAfter(frames: seq<Keyframe>, time: real): (r: Option<nat>)
    ensures r.Some? ==> r.value < |frames| && frames[r.value].time >= time
    ensures r.Some? ==> forall j :: 0 <= j < r.value ==> frames[j].time < time
    ensures r.None? ==> forall j :: 0 <= j < |frames| ==> frames[j].time < time
  {
    if frames == [] then None
    else if frames[0].time >= time then Some(0)
    else
      var rest := FirstAtOrAfter(frames[1..], time);
      if rest.None? then None else Some(rest.value + 1)
  }

  /** Linear interpolation from `a` (factor 0) to `b` (factor 1). */
  function Mix(a: real, b: real, factor: real): real {
    a + (b - a) * factor
  }

  lemma ScaleWithin(x: real, factor: real)
    requires 0.0 <= x && 0.0 <= factor <= 1.0
    ensures 0.0 <= x * factor <= x
  {
    assert x * (1.0 - factor) >= 0.0;
  }

  lemma MixBetween(a: real, b: real, factor: real)
    requires 0.0 <= factor <= 1.0
    ensures (if a <= b then a else b) <= Mix(a, b, factor) <= (if a <= b then b else a)
  {
    if a <= b {
      MixUp(a, b, factor);
    } else {
      MixDown(a, b, factor);
    }
  }

  lemma MixUp(a: real, b: real, factor: real)
    requires 0.0 <= factor <= 1.0 && a <= b
    ensures a <= Mix(a, b, factor) <= b
  {
    var d := b - a;
    ScaleWithin(d, factor);
    var p := d * factor;
    assert 0.0 <= p <= d;
    assert Mix(a, b, factor) == a + p;
  }

  lemma MixDown(a: real, b: real, factor: real)
    requires 0.0 <= factor <= 1.0 && b < a
    ensures b <= Mix(a, b, factor) <= a
  {
    var d := a - b;
    ScaleWithin(d, factor);
    SwapScale(a, b, factor);
    var p := d * factor;
    assert 0.0 <= p <= d;
    assert Mix(a, b, factor) == a - p;
  }

  lemma SwapScale(a: real, b: real, factor: real)
    ensures (b - a) * factor == -((a - b) * factor)
  {
  }

  /** The share of a positive span that a part of it covers lies in
    * (0, 1]. */
  lemma ShareInUnit(part: real, span: real)
    requires 0.0 < part <= span
    ensures 0.0 < part / span <= 1.0
  {
    var q := part / span;
    assert q * span == part;
  }

  /** Interpolates between the keyframe before the first keyframe at or
    * after `time` and that keyframe. The factor's denominator is positive
    * because the earlier keyframe lies strictly before `time`. */
  function Between(frames: seq<Keyframe>, k: nat, time: real): (v: real)
    requires 0 < k < |frames| && frames[k - 1].time < time <= frames[k].time
    ensures (if frames[k - 1].value <= frames[k].value then frames[k - 1].value else frames[k].value) <= v
    ensures v <= (if frames[k - 1].value <= frames[k].value then frames[k].value else frames[k - 1].value)
    ensures time == frames[k].time ==> v == frames[k].value
  {
    var f1 := frames[k - 1];
    var f2 := frames[k];
    var factor := (time - f1.time) / (f2.time - f1.time);
    ShareInUnit(time - f1.time, f2.time - f1.time);
    MixBetween(f1.value, f2.value, factor);
    Mix(f1.value, f2.value, factor)
  }

  /** The value at `time` as the engine computes it: before the first
    * keyframe, the first value; past the last keyframe the search finds
    * nothing and both ends of the interpolation stay on the FIRST
    * keyframe. */
  function GetByTimeAsWritten(p: AnimatedProperty, time: real): (r: Option<real>)
    ensures r.None? <==> p.keyframes == []
    ensures p.keyframes != [] && FirstAtOrAfter(p.keyframes, time).None? ==> r == Some(p.keyframes[0].value)
  {
    var frames := p.keyframes;
    if frames == [] then None
    else
      var k := FirstAtOrAfter(frames, time);
      if k.None? || k.value == 0 then Some(frames[0].value)
      else Some(Between(frames, k.value, time))
  }

  /** Past the last keyframe the value snaps back to the first one. */
  lemma PastLastKeyframeSnapsBack()
    ensures GetByTimeAsWritten(AnimatedProperty([Keyframe(0.0, 0.0), Keyframe(1.0, 10.0)]), 2.0) == Some(0.0)
    ensures GetByTime(AnimatedProperty([Keyframe(0.0, 0.0), Keyframe(1.0, 10.0)]), 2.0) == Some(10.0)
  {
    var frames := [Keyframe(0.0, 0.0), Keyframe(1.0, 10.0)];
    assert FirstAtOrAfter(frames[1..], 2.0) == None;
  }

  /** The value at `time`: the keyframes around it interpolated, the first
    * value before the first keyframe and the last value after the last. */
  function GetByTime(p: AnimatedProperty, time: real): (r: Option<real>)
    ensures r.None? <==> p.keyframes == []
    ensures p.keyframes != [] && time <= p.keyframes[0].time ==> r == Some(p.keyframes[0].value)
    ensures p.keyframes != [] && (forall j :: 0 <= j < |p.keyframes| ==> p.keyframes[j].time < time) ==>
              r == Some(p.keyframes[|p.keyframes| - 1].value)
    ensures r.Some? && FirstAtOrAfter(p.keyframes, time).Some? ==>
              r == GetByTimeAsWritten(p, time)
  {
    var frames := p.keyframes;
    if frames == [] then None
    else
      var k := FirstAtOrAfter(frames, time);
      if k.None? then Some(frames[|frames| - 1].value)
      else if k.value == 0 then Some(frames[0].value)
      else Some(Between(frames, k.value, time))
  }

  /** Between two keyframes the value stays within their values. */
  lemma GetByTimeBetween(p: AnimatedProperty, k: nat, time: real)
    requires TimesSorted(p.keyframes)
    requires 0 < k < |p.keyframes| && p.keyframes[k - 1].time < time <= p.keyframes[k].time
    ensures var a := p.keyframes[k - 1].value;
            var b := p.keyframes[k].value;
            GetByTime(p, time).Some?
            && (if a <= b then a else b) <= GetByTime(p, time).value <= (if a <= b then b else a)
  {
    var frames := p.keyframes;
    var f := FirstAtOrAfter(frames, time);
    assert f.Some? && f.value == k;
  }

  /** With strictly increasing times, reading at a keyframe's time gives
    * that keyframe's value. */
  lemma GetByTimeAtKeyframe(p: AnimatedProperty, k: nat)
    requires TimesIncreasing(p.keyframes) && k < |p.keyframes|
    ensures GetByTime(p, p.keyframes[k].time) == Some(p.keyframes[k].value)
  {
    var frames := p.keyframes;
    var time := frames[k].time;
    var f := FirstAtOrAfter(frames, time);
    assert f.Some? && f.value == k;
  }

  /** The value of keyframe `frame`; the engine does not check the index. */
  function GetByKeyframe(p: AnimatedProperty, frame: nat): real
    requires frame < |p.keyframes|
  {
    p.keyframes[frame].value
  }

  /** The value of keyframe `frame`, or `otherwise` past the last one. */
  function GetByKeyframeOrElse(p: AnimatedProperty, frame: nat, otherwise: real): (r: real)
    ensures frame >= GetNumKeyframes(p) ==> r == otherwise
  {
    if frame < |p.keyframes| then GetByKeyframe(p, frame) else otherwise
  }

  /** A keyframe added last is found at index count-1; the earlier ones
    * are unchanged and one past the end gives the default. */
  lemma AddThenGetByKeyframe(p: AnimatedProperty, time: real, value: real, frame: nat, otherwise: real)
    ensures GetByKeyframeOrElse(AddKeyframe(p, time, value), GetNumKeyframes(p), otherwise) == value
    ensures frame < GetNumKeyframes(p) ==>
              GetByKeyframeOrElse(AddKeyframe(p, time, value), frame, otherwise) == GetByKeyframeOrElse(p, frame, otherwise)
    ensures GetByKeyframeOrElse(AddKeyframe(p, time, value), GetNumKeyframes(p) + 1, otherwise) == otherwise
  {
    var q := AddKeyframe(p, time, value);
    if frame < GetNumKeyframes(p) {
      assert q.keyframes[frame] == q.keyframes[..|p.keyframes|][frame];
    }
  }
}
