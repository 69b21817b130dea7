/** The Intel/DVI ADPCM coder and decoder (web_server/audio/Adpcm.cpp), after the IMA
    Compatibility Project proceedings, vol. 2 no. 2, May 1992. */
module Adpcm {
  import opened Bytes

  type short = x: int | -32768 <= x < 32768

  const INDEX_TABLE: seq<int> := [-1, -1, -1, -1, 2, 4, 6, 8, -1, -1, -1, -1, 2, 4, 6, 8]

  const STEPS_0: seq<nat> := [7, 8, 9, 10, 11, 12, 13, 14, 16, 17]
  const STEPS_10: seq<nat> := [19, 21, 23, 25, 28, 31, 34, 37, 41, 45]
  const STEPS_20: seq<nat> := [50, 55, 60, 66, 73, 80, 88, 97, 107, 118]
  const STEPS_30: seq<nat> := [130, 143, 157, 173, 190, 209, 230, 253, 279, 307]
  const STEPS_40: seq<nat> := [337, 371, 408, 449, 494, 544, 598, 658, 724, 796]
  const STEPS_50: seq<nat> := [876, 963, 1060, 1166, 1282, 1411, 1552, 1707, 1878, 2066]
  const STEPS_60: seq<nat> := [2272, 2499, 2749, 3024, 3327, 3660, 4026, 4428, 4871, 5358]
  const STEPS_70: seq<nat> := [5894, 6484, 7132, 7845, 8630, 9493, 10442, 11487, 12635, 13899]
  const STEPS_80: seq<nat> := [15289, 16818, 18500, 20350, 22385, 24623, 27086, 29794, 32767]
  const STEPSIZE_TABLE: seq<nat> :=
    STEPS_0 + STEPS_10 + STEPS_20 + STEPS_30 + STEPS_40 + STEPS_50 + STEPS_60 + STEPS_70 + STEPS_80

  /** What the algorithm asks of its step table; everything below holds for any such table. */
  ghost predicate Steps(t: seq<nat>) {
    |t| == 89 && t[88] == 32767 && forall i :: 0 <= i < 89 ==> 7 <= t[i] <= 32767
  }

  type Table = t: seq<nat> | Steps(t) ghost witness seq(89, i => 32767)

  ghost predicate InRange(t: seq<nat>) {
    forall i :: 0 <= i < |t| ==> 7 <= t[i] <= 32767
  }

  lemma InRangeJoin(a: seq<nat>, b: seq<nat>)
    requires InRange(a) && InRange(b)
    ensures InRange(a + b)
  {
  }

  lemma StandardSteps()
    ensures Steps(STEPSIZE_TABLE)
  {
    InRangeJoin(STEPS_0, STEPS_10);
    InRangeJoin(STEPS_0 + STEPS_10, STEPS_20);
    InRangeJoin(STEPS_0 + STEPS_10 + STEPS_20, STEPS_30);
    InRangeJoin(STEPS_0 + STEPS_10 + STEPS_20 + STEPS_30, STEPS_40);
    InRangeJoin(STEPS_0 + STEPS_10 + STEPS_20 + STEPS_30 + STEPS_40, STEPS_50);
    InRangeJoin(STEPS_0 + STEPS_10 + STEPS_20 + STEPS_30 + STEPS_40 + STEPS_50, STEPS_60);
    InRangeJoin(STEPS_0 + STEPS_10 + STEPS_20 + STEPS_30 + STEPS_40 + STEPS_50 + STEPS_60, STEPS_70);
    InRangeJoin(STEPS_0 + STEPS_10 + STEPS_20 + STEPS_30 + STEPS_40 + STEPS_50 + STEPS_60 + STEPS_70, STEPS_80);
  }

  /** The index table by rule: quiet codes step down one, loud ones up by twos. */
  function IndexChange(code: Code): int {
    if code % 8 < 4 then -1 else 2 * (code % 8 - 3)
  }

  lemma IndexTableByRule(code: Code)
    ensures |INDEX_TABLE| == 16 && INDEX_TABLE[code] == IndexChange(code)
  {
  }

  /** Predictor and position in the step table; every value of the type is legal. */
  type Index = i: int | 0 <= i <= 88
  datatype State = State(valprev: short, index: Index)

  type Code = c: nat | c < 16

  predicate Bit(c: nat, weight: nat)
    requires weight > 0
  {
    c / weight % 2 == 1
  }

  /** The change a code stands for: (magnitude + 1/2) * step / 4 in shifts and adds. */
  function Change(step: nat, code: Code): nat {
    step / 8
    + (if Bit(code, 4) then step else 0)
    + (if Bit(code, 2) then step / 2 else 0)
    + (if Bit(code, 1) then step / 4 else 0)
  }

  function Clamp16(v: int): short {
    if v > 32767 then 32767 else if v < -32768 then -32768 else v
  }

  function ClampIndex(i: int): Index {
    if i < 0 then 0 else if i > 88 then 88 else i
  }

  /** What one code does to the predictor. */
  function Apply(t: Table, st: State, code: Code): State {
    var change := Change(t[st.index], code);
    State(Clamp16(if code >= 8 then st.valprev - change else st.valprev + change),
          ClampIndex(st.index + IndexChange(code)))
  }

  /** The three magnitude bits, by successive subtraction. */
  function Magnitude(diff: nat, step: nat): (m: nat)
    ensures m < 8
  {
    var d4 := if diff >= step then diff - step else diff;
    var d2 := if d4 >= step / 2 then d4 - step / 2 else d4;
    (if diff >= step then 4 else 0) + (if d4 >= step / 2 then 2 else 0) + if d2 >= step / 4 then 1 else 0
  }

  function Distance(a: int, b: int): nat { if a < b then b - a else a - b }

  /** The code chosen for a sample. */
  function CodeOf(t: Table, st: State, sample: short): Code {
    (if sample < st.valprev then 8 else 0) + Magnitude(Distance(sample, st.valprev), t[st.index])
  }

  /** What the coder does to a run of samples: the codes, its prediction after each sample,
      and its state at the end. */
  datatype Run = Run(codes: seq<Code>, heard: seq<short>, end: State)

  function Coded(t: Table, st: State, samples: seq<short>): (r: Run)
    ensures |r.codes| == |r.heard| == |samples|
  {
    if samples == [] then Run([], [], st)
    else
      var n := |samples| - 1;
      var before := Coded(t, st, samples[..n]);
      var code := CodeOf(t, before.end, samples[n]);
      var after := Apply(t, before.end, code);
      Run(before.codes + [code], before.heard + [after.valprev], after)
  }

  /** The samples a run of codes stands for and the state it leads to. */
  function Decoded(t: Table, st: State, codes: seq<Code>): (r: (seq<short>, State))
    ensures |r.0| == |codes|
  {
    if codes == [] then ([], st)
    else
      var n := |codes| - 1;
      var before := Decoded(t, st, codes[..n]);
      var after := Apply(t, before.1, codes[n]);
      (before.0 + [after.valprev], after)
  }

  // ---- Two codes to a byte, the first in the high half; an odd last one stands alone ----

  function PackedSize(n: nat): nat { (n + 1) / 2 }

  function Packed(codes: seq<Code>, k: nat): byte
    requires k < PackedSize(|codes|)
  {
    codes[2 * k] as nat * 16 + if 2 * k + 1 < |codes| then codes[2 * k + 1] else 0
  }

  function Pack(codes: seq<Code>): (s: seq<byte>)
    ensures |s| == PackedSize(|codes|)
  {
    seq(PackedSize(|codes|), k requires 0 <= k < PackedSize(|codes|) => Packed(codes, k))
  }

  function Unpack(bytes: seq<byte>, n: nat): (codes: seq<Code>)
    requires PackedSize(n) <= |bytes|
    ensures |codes| == n
  {
    seq(n, i requires 0 <= i < n => Nibble(bytes[i / 2], i % 2 == 1))
  }

  lemma Parity(i: nat)
    ensures if i % 2 == 0 then (i + 1) % 2 == 1 && (i + 1) / 2 == i / 2 && PackedSize(i) == i / 2 && PackedSize(i + 1) == i / 2 + 1
            else (i + 1) % 2 == 0 && (i + 1) / 2 == i / 2 + 1 && PackedSize(i) == i / 2 + 1 && PackedSize(i + 1) == i / 2 + 1
    ensures i == 2 * (i / 2) + i % 2
  {
  }

  lemma NibbleMasks(c: Code)
    ensures c as nat * 16 % 256 == c as nat * 16 && c % 16 == c
  {
  }

  function Nibble(b: byte, low: bool): Code {
    if low then b as nat % 16 else b as nat / 16
  }

  lemma UnpackOfPack(codes: seq<Code>, rest: seq<byte>)
    ensures Unpack(Pack(codes) + rest, |codes|) == codes
  {
    forall i | 0 <= i < |codes| ensures Unpack(Pack(codes) + rest, |codes|)[i] == codes[i] {
      var k := i / 2;
      assert (Pack(codes) + rest)[k] == Packed(codes, k);
    }
  }

  lemma {:induction false} Lockstep(t: Table, st: State, samples: seq<short>)
    ensures var run := Coded(t, st, samples); Decoded(t, st, run.codes) == (run.heard, run.end)
  {
    if samples != [] {
      var n := |samples| - 1;
      Lockstep(t, st, samples[..n]);
      assert Coded(t, st, samples).codes[..n] == Coded(t, st, samples[..n]).codes;
    }
  }

  /** Lockstep over the wire: whatever the samples and the start state, decoding the packed
      codes from the same start gives, after every sample, the prediction the coder held
      there, and ends in the coder's state. */
  lemma LockstepPacked(t: Table, st: State, samples: seq<short>, rest: seq<byte>)
    ensures var run := Coded(t, st, samples);
            Decoded(t, st, Unpack(Pack(run.codes) + rest, |samples|)) == (run.heard, run.end)
  {
    Lockstep(t, st, samples);
    UnpackOfPack(Coded(t, st, samples).codes, rest);
  }

  // ---- Which code is chosen, and what it does ----

  /** The quarter steps a magnitude stands for, without the half that every code adds. */
  function Quarters(m: nat, step: nat): nat {
    (if m >= 4 then step else 0) + (if m % 4 >= 2 then step / 2 else 0) + if m % 2 == 1 then step / 4 else 0
  }

  lemma QuartersListed(step: nat)
    ensures Quarters(0, step) == 0 && Quarters(1, step) == step / 4 && Quarters(2, step) == step / 2
    ensures Quarters(3, step) == step / 2 + step / 4 && Quarters(4, step) == step && Quarters(5, step) == step + step / 4
    ensures Quarters(6, step) == step + step / 2 && Quarters(7, step) == step + step / 2 + step / 4
  {
  }

  /** The greatest magnitude within a distance. */
  ghost predicate IsGreatest(m: nat, distance: nat, step: nat) {
    m < 8 && Quarters(m, step) <= distance && forall k :: m < k < 8 ==> Quarters(k, step) > distance
  }

  lemma MagnitudeIsGreatest(distance: nat, step: nat)
    requires step >= 7
    ensures IsGreatest(Magnitude(distance, step), distance, step)
  {
    QuartersListed(step);
    var m := Magnitude(distance, step);
    forall k | m < k < 8 ensures Quarters(k, step) > distance {
      assert k in {1, 2, 3, 4, 5, 6, 7};
    }
  }

  /** The code of a sample: its high bit says that the sample lies below the prediction, the rest
      is the greatest magnitude within the distance. */
  lemma CodeMeans(t: Table, st: State, sample: short)
    ensures var code := CodeOf(t, st, sample);
            && (code >= 8 <==> sample < st.valprev)
            && IsGreatest(code % 8, if sample < st.valprev then st.valprev - sample else sample - st.valprev, t[st.index])
  {
    var distance := Distance(sample, st.valprev);
    MagnitudeIsGreatest(distance, t[st.index]);
    SignAndMagnitude(sample < st.valprev, Magnitude(distance, t[st.index]));
  }

  lemma SignAndMagnitude(below: bool, m: nat)
    requires m < 8
    ensures var code := (if below then 8 else 0) + m; (code >= 8 <==> below) && code % 8 == m
  {
  }

  lemma ChangeMeans(step: nat, m: nat, code: Code)
    requires m == code % 8
    ensures Change(step, code) == step / 8 + Quarters(m, step)
  {
    if code >= 8 {
      SignedChange(step, m);
      assert code == m + 8;
    }
    MagnitudeBits(m >= 4, m % 4 >= 2, m % 2 == 1);
  }

  /** What a code does: the prediction moves by those quarter steps and half of one, up or down,
      within sixteen bits; the index by one down or by two, four, six or eight up, within the
      table. */
  lemma ApplyMeans(t: Table, st: State, code: Code)
    ensures var step, next := t[st.index], Apply(t, st, code);
            var v := if code < 8 then st.valprev + (step / 8 + Quarters(code % 8, step)) else st.valprev - (step / 8 + Quarters(code % 8, step));
            var i := st.index + [-1, -1, -1, -1, 2, 4, 6, 8][code % 8];
            && next.valprev == (if v < -32768 then -32768 else if v > 32767 then 32767 else v)
            && next.index == (if i < 0 then 0 else if i > 88 then 88 else i)
  {
    ChangeMeans(t[st.index], code % 8, code);
    assert [-1, -1, -1, -1, 2, 4, 6, 8][code % 8] == IndexChange(code);
  }

  /** Over a whole run each code is that of its sample, in the state the samples before it left,
      and leads to the prediction heard there. */
  lemma {:induction false} CodedEach(t: Table, st: State, samples: seq<short>, i: nat)
    requires i < |samples|
    ensures var run, before := Coded(t, st, samples), Coded(t, st, samples[..i]).end;
            && run.codes[i] == CodeOf(t, before, samples[i])
            && Coded(t, st, samples[..i + 1]).end == Apply(t, before, run.codes[i])
            && run.heard[i] == Apply(t, before, run.codes[i]).valprev
  {
    var n := |samples| - 1;
    if i < n {
      CodedEach(t, st, samples[..n], i);
      Shorter(samples, n, i);
      Shorter(samples, n, i + 1);
    } else {
      assert samples[..i + 1] == samples;
    }
  }

  lemma Shorter<T>(s: seq<T>, n: nat, i: nat)
    requires i <= n <= |s|
    ensures s[..n][..i] == s[..i]
  {
  }

  /** In a packed byte the earlier code is the high half; an odd last one leaves the low half 0. */
  lemma PackMeans(codes: seq<Code>, k: nat)
    requires 2 * k < |codes|
    ensures |Pack(codes)| == (|codes| + 1) / 2
    ensures Pack(codes)[k] / 16 == codes[2 * k]
    ensures Pack(codes)[k] % 16 == if 2 * k + 1 < |codes| then codes[2 * k + 1] else 0
  {
  }

  // ---- Tracking ----

  /** The sample is further away than seven quarter steps reach. */
  predicate Overloaded(t: Table, st: State, sample: short) {
    var step := t[st.index];
    Distance(sample, st.valprev) > step + step / 2 + 2 * (step / 4)
  }

  lemma MagnitudeTracks(diff: nat, step: nat)
    requires step >= 7
    ensures var left := diff - Change(step, Magnitude(diff, step));
            if diff <= step + step / 2 + 2 * (step / 4) then -(step / 8) <= left <= step / 8 + 2
            else 0 < left < diff && Magnitude(diff, step) == 7
  {
    var d4 := if diff >= step then diff - step else diff;
    var d2 := if d4 >= step / 2 then d4 - step / 2 else d4;
    MagnitudeBits(diff >= step, d4 >= step / 2, d2 >= step / 4);
  }

  lemma MagnitudeBits(b4: bool, b2: bool, b1: bool)
    ensures var m := (if b4 then 4 else 0) + (if b2 then 2 else 0) + if b1 then 1 else 0;
            Bit(m, 4) == b4 && Bit(m, 2) == b2 && Bit(m, 1) == b1
  {
  }

  lemma SignedChange(step: nat, m: nat)
    requires m < 8
    ensures Change(step, m + 8) == Change(step, m)
  {
    assert Bit(m + 8, 4) == Bit(m, 4);
    assert Bit(m + 8, 2) == Bit(m, 2);
    assert Bit(m + 8, 1) == Bit(m, 1);
  }

  /** Where one coded sample moves the prediction, in terms of the magnitude alone. */
  lemma Moves(t: Table, st: State, sample: short, m: nat, change: nat)
    requires m == Magnitude(Distance(sample, st.valprev), t[st.index]) && change == Change(t[st.index], m)
    ensures Apply(t, st, CodeOf(t, st, sample)).valprev
         == Clamp16(if sample < st.valprev then st.valprev - change else st.valprev + change)
    ensures m == 7 ==> Apply(t, st, CodeOf(t, st, sample)).index == ClampIndex(st.index + 8)
  {
    SignedChange(t[st.index], m);
  }

  /** One coded sample: within reach, the prediction lands within an eighth step plus two;
      beyond reach, the error strictly shrinks and keeps its sign. Clamping spoils neither. */
  lemma Tracks(t: Table, st: State, sample: short)
    ensures var after := Apply(t, st, CodeOf(t, st, sample)).valprev;
            var step := t[st.index];
            if !Overloaded(t, st, sample) then Distance(sample, after) <= step / 8 + 2
            else if sample < st.valprev then sample < after < st.valprev
            else st.valprev < after < sample
  {
    var step, diff := t[st.index], Distance(sample, st.valprev);
    var m := Magnitude(diff, step);
    var change := Change(step, m);
    assert if Overloaded(t, st, sample) then change < diff && 0 < change else diff <= change + step / 8 + 2 && change <= diff + step / 8 by {
      MagnitudeTracks(diff, step);
    }
    Moves(t, st, sample, m, change);
  }

  /** The state after `k` samples of the same value. */
  function Held(t: Table, st: State, sample: short, k: nat): State {
    if k == 0 then st
    else
      var before := Held(t, st, sample, k - 1);
      Apply(t, before, CodeOf(t, before, sample))
  }

  /** Where `k` overloaded samples bring the index at least. */
  function Climbed(k: nat): nat { if 8 * k <= 88 then 8 * k else 88 }

  lemma {:induction false} ClimbsBy8(index: nat -> Index, k: nat)
    requires forall j: nat :: j < k ==> index(j + 1) == ClampIndex(index(j) + 8)
    ensures index(k) >= Climbed(k)
  {
    if k > 0 {
      ClimbsBy8(index, k - 1);
      var j := k - 1;
      assert index(j + 1) == ClampIndex(index(j) + 8);
    }
  }

  /** An overloaded sample raises the index by eight, as far as it goes. */
  lemma OverloadRaises(t: Table, st: State, sample: short)
    requires Overloaded(t, st, sample)
    ensures Apply(t, st, CodeOf(t, st, sample)).index == ClampIndex(st.index + 8)
  {
    var step, diff := t[st.index], Distance(sample, st.valprev);
    var m := Magnitude(diff, step);
    assert m == 7 by {
      MagnitudeTracks(diff, step);
    }
    Moves(t, st, sample, m, Change(step, m));
  }

  /** The position in the step table, as a function of time. */
  function IndexAt(t: Table, st: State, sample: short): nat -> Index {
    k => Held(t, st, sample, k).index
  }

  lemma IndexRises(t: Table, st: State, sample: short, k: nat)
    requires Overloaded(t, Held(t, st, sample, k), sample)
    ensures IndexAt(t, st, sample)(k + 1) == ClampIndex(IndexAt(t, st, sample)(k) + 8)
  {
    OverloadRaises(t, Held(t, st, sample, k), sample);
    HeldStep(t, st, sample, k + 1);
  }

  lemma OverloadClimbs(t: Table, st: State, sample: short, k: nat)
    requires forall j :: 0 <= j < k ==> Overloaded(t, Held(t, st, sample, j), sample)
    ensures Held(t, st, sample, k).index >= Climbed(k)
  {
    var index := IndexAt(t, st, sample);
    forall j: nat | j < k ensures index(j + 1) == ClampIndex(index(j) + 8) {
      IndexRises(t, st, sample, j);
    }
    ClimbsBy8(index, k);
  }

  lemma HeldStep(t: Table, st: State, sample: short, k: nat)
    requires k > 0
    ensures var before := Held(t, st, sample, k - 1);
            && Held(t, st, sample, k).index == Apply(t, before, CodeOf(t, before, sample)).index
            && Held(t, st, sample, k).valprev == Apply(t, before, CodeOf(t, before, sample)).valprev
  {
  }

  lemma TopStep(t: Table, st: State, sample: short)
    requires st.index == 88 && Overloaded(t, st, sample)
    ensures Distance(sample, st.valprev) > 65532
  {
    assert t[88] == 32767;
  }

  /** On constant input, from any state, overload lasts at most eleven samples in a row. */
  lemma OverloadEnds(t: Table, st: State, sample: short, k: nat)
    requires forall j :: 0 <= j < k ==> Overloaded(t, Held(t, st, sample, j), sample)
    ensures k <= 11
  {
    if k >= 12 {
      OverloadClimbs(t, st, sample, 11);
      var s := Held(t, st, sample, 11);
      assert s.index == 88 && Overloaded(t, s, sample);
      TopStep(t, s, sample);
      FirstGain(t, st, sample, 11);
    }
  }

  /** The remaining error, as a function of time. */
  function ErrorAt(t: Table, st: State, sample: short): nat -> nat {
    k => Distance(sample, Held(t, st, sample, k).valprev)
  }

  lemma ErrorShrinks(t: Table, st: State, sample: short, k: nat)
    requires Overloaded(t, Held(t, st, sample, k), sample)
    ensures ErrorAt(t, st, sample)(k + 1) < ErrorAt(t, st, sample)(k)
  {
    Tracks(t, Held(t, st, sample, k), sample);
    HeldStep(t, st, sample, k + 1);
  }

  lemma {:induction false} StaysBelow(error: nat -> nat, bound: nat, k: nat)
    requires k > 0 && error(1) <= bound && forall j: nat :: j < k ==> error(j + 1) < error(j)
    ensures error(k) <= bound
  {
    if k > 1 {
      StaysBelow(error, bound, k - 1);
      var j := k - 1;
      assert error(j + 1) < error(j);
    }
  }

  /** The first overloaded sample alone gains ten, and no later one loses ground. */
  lemma FirstGain(t: Table, st: State, sample: short, k: nat)
    requires k > 0 && forall j :: 0 <= j < k ==> Overloaded(t, Held(t, st, sample, j), sample)
    ensures Distance(sample, Held(t, st, sample, k).valprev) <= 65525
  {
    var error := ErrorAt(t, st, sample);
    assert Held(t, st, sample, 0) == st;
    OneGain(t, st, sample);
    HeldStep(t, st, sample, 1);
    forall j: nat | j < k ensures error(j + 1) < error(j) {
      ErrorShrinks(t, st, sample, j);
    }
    StaysBelow(error, 65525, k);
  }

  lemma OneGain(t: Table, st: State, sample: short)
    requires Overloaded(t, st, sample)
    ensures Distance(sample, Apply(t, st, CodeOf(t, st, sample)).valprev) <= 65525
  {
    var step := t[st.index];
    MagnitudeTracks(Distance(sample, st.valprev), step);
    SignedChange(step, 7);
    assert Change(step, 7) >= step + step / 2 by {
      MagnitudeBits(true, true, true);
    }
  }

  // ---- The two loops ----

  class AdpcmState {
    var valprev: short
    var index: Index

    function View(): State
      reads this
    {
      State(valprev, index)
    }

    constructor (valprev: short, index: Index)
      ensures View() == State(valprev, index)
    {
      this.valprev, this.index := valprev, index;
    }
  }

  /** Codes `len` samples; bytes of the output beyond the packed codes keep their value. */
  method AdpcmCoder(t: Table, indata: array<short>, outdata: array<byte>, len: nat, state: AdpcmState)
    requires len <= indata.Length && PackedSize(len) <= outdata.Length
    modifies outdata, state
    ensures var run := Coded(t, old(state.View()), indata[..len]);
            && state.View() == run.end
            && outdata[..] == Pack(run.codes) + old(outdata[..])[PackedSize(len)..]
  {
    ghost var start, before, samples := state.View(), outdata[..], indata[..len];
    var st := state.View();
    var bufferstep := true;
    var outputbuffer: byte := 0;
    var outp := 0;
    ghost var codes: seq<Code> := [];
    for i := 0 to len
      invariant Coding(t, start, samples, i, codes, st)
      invariant Packing(codes, outdata[..], before, outp, bufferstep, outputbuffer)
    {
      var delta, next := CoderStep(t, indata[i], st);
      assert samples[i] == indata[i];
      CodingNext(t, start, samples, i, codes, st);
      st := next;
      outp, outputbuffer := PutCode(delta, outdata, outp, bufferstep, outputbuffer, codes, before);
      codes := codes + [delta];
      bufferstep := !bufferstep;
    }
    assert samples[..len] == samples;
    PutLast(outdata, outp, bufferstep, outputbuffer, codes, before);
    state.valprev, state.index := st.valprev, st.index;
  }

  /** One write of the coder's loop: a code is kept back in the high half, or joins the one
      kept back and goes out. */
  method PutCode(delta: Code, outdata: array<byte>, outp: nat, bufferstep: bool, outputbuffer: byte, ghost codes: seq<Code>, ghost before: seq<byte>)
    returns (outp': nat, outputbuffer': byte)
    requires Packing(codes, outdata[..], before, outp, bufferstep, outputbuffer)
    requires PackedSize(|codes| + 1) <= outdata.Length
    modifies outdata
    ensures Packing(codes + [delta], outdata[..], before, outp', !bufferstep, outputbuffer')
  {
    outp', outputbuffer' := outp, outputbuffer;
    Parity(|codes|);
    NibbleMasks(delta);
    if bufferstep {
      PackHold(codes, delta, outdata[..], before);
      outputbuffer' := delta as nat * 16 % 256;
    } else {
      PackStore(codes, delta, outdata[..], before);
      ghost var out := outdata[..];
      var both: byte := delta % 16 + outputbuffer;
      outdata[outp] := both;
      assert outdata[..] == out[outp := both];
      outp' := outp + 1;
    }
  }

  /** An odd last code goes out alone. */
  method PutLast(outdata: array<byte>, outp: nat, bufferstep: bool, outputbuffer: byte, ghost codes: seq<Code>, ghost before: seq<byte>)
    requires Packing(codes, outdata[..], before, outp, bufferstep, outputbuffer)
    modifies outdata
    ensures outdata[..] == Pack(codes) + before[PackedSize(|codes|)..]
  {
    Parity(|codes|);
    PackEnd(codes, outdata[..], before);
    if !bufferstep {
      ghost var out := outdata[..];
      outdata[outp] := outputbuffer;
      assert outdata[..] == out[outp := outputbuffer];
    }
  }

  ghost predicate Packing(codes: seq<Code>, out: seq<byte>, before: seq<byte>, outp: nat, bufferstep: bool, outputbuffer: byte) {
    && PackedSoFar(codes, out, before)
    && outp == |codes| / 2 && bufferstep == (|codes| % 2 == 0)
    && (!bufferstep ==> outputbuffer == codes[|codes| - 1] as nat * 16)
  }

  ghost predicate Coding(t: Table, start: State, samples: seq<short>, i: nat, codes: seq<Code>, st: State) {
    i <= |samples| && |codes| == i && codes == Coded(t, start, samples[..i]).codes && st == Coded(t, start, samples[..i]).end
  }

  lemma CodingNext(t: Table, start: State, samples: seq<short>, i: nat, codes: seq<Code>, st: State)
    requires Coding(t, start, samples, i, codes, st) && i < |samples|
    ensures var code := CodeOf(t, st, samples[i]);
            Coding(t, start, samples, i + 1, codes + [code], Apply(t, st, code))
  {
    assert samples[..i + 1][..i] == samples[..i];
  }

  /** Whole bytes are out, the rest of the output is as it was. */
  ghost predicate PackedSoFar(codes: seq<Code>, out: seq<byte>, before: seq<byte>) {
    && PackedSize(|codes|) <= |out| == |before|
    && (forall k :: 0 <= k < |codes| / 2 ==> out[k] == codes[2 * k] as nat * 16 + codes[2 * k + 1])
    && (forall k :: |codes| / 2 <= k < |out| ==> out[k] == before[k])
  }

  lemma PackHold(codes: seq<Code>, code: Code, out: seq<byte>, before: seq<byte>)
    requires PackedSoFar(codes, out, before) && |codes| % 2 == 0 && PackedSize(|codes| + 1) <= |out|
    ensures PackedSoFar(codes + [code], out, before)
  {
    Parity(|codes|);
  }

  lemma PackStore(codes: seq<Code>, code: Code, out: seq<byte>, before: seq<byte>)
    requires PackedSoFar(codes, out, before) && |codes| % 2 == 1
    ensures PackedSize(|codes|) <= |out|
    ensures PackedSoFar(codes + [code], out[|codes| / 2 := codes[|codes| - 1] as nat * 16 + code], before)
  {
    Parity(|codes|);
  }

  lemma PackEnd(codes: seq<Code>, out: seq<byte>, before: seq<byte>)
    requires PackedSoFar(codes, out, before)
    ensures (if |codes| % 2 == 1 then out[|codes| / 2 := codes[|codes| - 1] as nat * 16] else out)
         == Pack(codes) + before[PackedSize(|codes|)..]
  {
    Parity(|codes|);
  }

  /** The body of the coder's loop up to the new predictor and index. */
  method CoderStep(t: Table, val: short, st: State) returns (delta: Code, next: State)
    ensures delta == CodeOf(t, st, val)
    ensures next == Apply(t, st, delta)
  {
    var step := t[st.index];
    ghost var full := step;
    var diff := val - st.valprev;
    var sign := if diff < 0 then 8 else 0;
    if sign != 0 {
      diff := -diff;
    }
    var d, vpdiff := Quantize(diff, step);
    SignedChange(step, d);
    delta := d + sign;
    next := Update(st, sign, vpdiff, delta);
  }

  /** Divide and clamp: the magnitude bits and the change they stand for, together. */
  method Quantize(distance: nat, full: nat) returns (delta: nat, vpdiff: nat)
    ensures delta == Magnitude(distance, full)
    ensures vpdiff == Change(full, delta)
  {
    var diff, step := distance, full;
    delta, vpdiff := 0, step / 8;
    if diff >= step {
      delta, diff, vpdiff := 4, diff - step, vpdiff + step;
    }
    step := step / 2;
    if diff >= step {
      delta, diff, vpdiff := delta + 2, diff - step, vpdiff + step;
    }
    step := step / 2;
    assert step == full / 4;
    if diff >= step {
      delta, vpdiff := delta + 1, vpdiff + step;
    }
    var d4 := if distance >= full then distance - full else distance;
    var d2 := if d4 >= full / 2 then d4 - full / 2 else d4;
    MagnitudeBits(distance >= full, d4 >= full / 2, d2 >= full / 4);
  }

  /** Move the predictor and the index and clamp both. */
  method Update(st: State, sign: nat, vpdiff: nat, code: Code) returns (next: State)
    ensures next.valprev == Clamp16(if sign != 0 then st.valprev - vpdiff else st.valprev + vpdiff)
    ensures next.index == ClampIndex(st.index + IndexChange(code))
  {
    var valpred: int := if sign != 0 then st.valprev - vpdiff else st.valprev + vpdiff;
    if valpred > 32767 {
      valpred := 32767;
    } else if valpred < -32768 {
      valpred := -32768;
    }
    var index: int := st.index + IndexChange(code);
    if index < 0 {
      index := 0;
    }
    if index > 88 {
      index := 88;
    }
    next := State(valpred, index);
  }

  /** The byte as the signed char the decoder reads. */
  function Signed(b: byte): int { if b >= 128 then b as int - 256 else b }

  /** Shifting and masking the signed char gives the unsigned halves. */
  lemma SignedHalves(b: byte)
    ensures Signed(b) / 16 % 16 == b as int / 16 && Signed(b) % 16 == b as int % 16
  {
  }

  /** One read of the decoder's loop: every other code opens a new byte. */
  method NextCode(indata: array<byte>, inp: nat, bufferstep: bool, inputbuffer: int, ghost i: nat)
    returns (delta: Code, inp': nat, inputbuffer': int)
    requires inp == PackedSize(i) && bufferstep == (i % 2 == 1) && i / 2 < indata.Length
    requires bufferstep ==> inputbuffer == Signed(indata[i / 2])
    ensures delta == Nibble(indata[i / 2], i % 2 == 1)
    ensures inp' == PackedSize(i + 1) && inputbuffer' == Signed(indata[i / 2])
  {
    inp', inputbuffer' := inp, inputbuffer;
    Parity(i);
    SignedHalves(indata[i / 2]);
    if bufferstep {
      delta := inputbuffer' % 16;
    } else {
      inputbuffer' := Signed(indata[inp]);
      inp' := inp + 1;
      delta := inputbuffer' / 16 % 16;
    }
  }

  /** One sample goes out, behind those heard so far. */
  method Store(outdata: array<short>, i: nat, x: short, ghost heard: seq<short>, ghost before: seq<short>)
    requires i == |heard| < |before| == outdata.Length && outdata[..] == heard + before[i..]
    modifies outdata
    ensures outdata[..] == heard + [x] + before[i + 1..]
  {
    OneMore(heard, x, before);
    ghost var out := outdata[..];
    outdata[i] := x;
    assert outdata[..] == out[i := x];
  }

  method AdpcmDecoder(t: Table, indata: array<byte>, outdata: array<short>, len: nat, state: AdpcmState)
    requires PackedSize(len) <= indata.Length && len <= outdata.Length
    modifies outdata, state
    ensures var r := Decoded(t, old(state.View()), Unpack(old(indata[..]), len));
            && state.View() == r.1
            && outdata[..] == r.0 + old(outdata[..])[len..]
  {
    ghost var start, before, bytes := state.View(), outdata[..], indata[..];
    ghost var codes := Unpack(bytes, len);
    var st := state.View();
    var inputbuffer := 0;
    var bufferstep := false;
    var inp := 0;
    ghost var heard: seq<short> := [];
    for i := 0 to len
      invariant inp == PackedSize(i) && bufferstep == (i % 2 == 1)
      invariant bufferstep ==> inputbuffer == Signed(bytes[i / 2])
      invariant indata[..] == bytes
      invariant Decoding(t, start, codes, i, heard, st)
      invariant outdata[..] == heard + before[i..]
    {
      Parity(i);
      var delta, nextInp, nextBuffer := NextCode(indata, inp, bufferstep, inputbuffer, i);
      inp, inputbuffer := nextInp, nextBuffer;
      assert delta == codes[i];
      bufferstep := !bufferstep;
      DecodingNext(t, start, codes, i, heard, st);
      st := DecoderStep(t, delta, st);
      Store(outdata, i, st.valprev, heard, before);
      heard := heard + [st.valprev];
    }
    state.valprev, state.index := st.valprev, st.index;
    assert codes[..len] == codes;
  }

  ghost predicate Decoding(t: Table, start: State, codes: seq<Code>, i: nat, heard: seq<short>, st: State) {
    i <= |codes| && |heard| == i && Decoded(t, start, codes[..i]) == (heard, st)
  }

  lemma DecodingNext(t: Table, start: State, codes: seq<Code>, i: nat, heard: seq<short>, st: State)
    requires Decoding(t, start, codes, i, heard, st) && i < |codes|
    ensures var next := Apply(t, st, codes[i]); Decoding(t, start, codes, i + 1, heard + [next.valprev], next)
  {
    assert codes[..i + 1][..i] == codes[..i];
  }

  lemma OneMore(heard: seq<short>, x: short, before: seq<short>)
    requires |heard| < |before|
    ensures (heard + before[|heard|..])[|heard| := x] == heard + [x] + before[|heard| + 1..]
  {
  }

  /** The body of the decoder's loop up to the new predictor and index. */
  method DecoderStep(t: Table, code: Code, st: State) returns (next: State)
    ensures next == Apply(t, st, code)
  {
    var step := t[st.index];
    var sign: nat := if code >= 8 then 8 else 0;
    var delta: nat := code - sign;
    var vpdiff := step / 8;
    if Bit(delta, 4) {
      vpdiff := vpdiff + step;
    }
    if Bit(delta, 2) {
      vpdiff := vpdiff + step / 2;
    }
    if Bit(delta, 1) {
      vpdiff := vpdiff + step / 4;
    }
    SignedChange(step, delta);
    next := Update(st, sign, vpdiff, code);
  }
}
