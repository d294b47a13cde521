/** The reference-back interpreter: a one-register state machine that walks
    the stimulus stream and the reference-flag stream and labels each trial
    with the remembered stimulus and whether the current stimulus matches it
    (`parse_ref_back_block` in exp.py). */
module Interpreter {
  import opened Wrappers
  import opened Rounding

  /** The two label columns, in trial order: `isSame[i]` says whether trial
      `i` shows the remembered stimulus, `inMem[i]` is the stimulus remembered
      when trial `i` is shown (before any update trial `i` makes). */
  datatype Labels<T> = Labels(isSame: seq<bool>, inMem: seq<T>)

  /** Number of trials the interpreter labels: the loop zips both streams,
      so the shorter one decides. */
  function ZippedLength<T>(stream: seq<T>, refs: seq<bool>): nat {
    Min(|stream|, |refs|)
  }

  /** Memory after trial `i`: a reference trial loads its own stimulus,
      any other trial keeps what was remembered. */
  function Next<T>(mem: T, stim: T, isRef: bool): T {
    if isRef then stim else mem
  }

  /** Labels trials `i ..` given the memory `mem` held before trial `i`.
      Each trial is compared with the memory before its own update. */
  function Scan<T(==)>(stream: seq<T>, refs: seq<bool>, i: nat, mem: T): (r: Labels<T>)
    requires i <= ZippedLength(stream, refs)
    ensures |r.isSame| == |r.inMem| == ZippedLength(stream, refs) - i
    ensures i < ZippedLength(stream, refs) ==> r.inMem[0] == mem
    ensures forall j :: 0 <= j < |r.isSame| ==> r.isSame[j] == (r.inMem[j] == stream[i + j])
    ensures forall j, k {:trigger r.inMem[j], r.inMem[k]} :: 0 <= j && k == j + 1 && k < |r.inMem| ==>
              r.inMem[k] == Next(r.inMem[j], stream[i + j], refs[i + j])
    decreases ZippedLength(stream, refs) - i
  {
    if i == ZippedLength(stream, refs) then Labels([], [])
    else
      var rest := Scan(stream, refs, i + 1, Next(mem, stream[i], refs[i]));
      Labels([mem == stream[i]] + rest.isSame, [mem] + rest.inMem)
  }

  /** The interpreter. It fails as the original does when the reference
      stream is empty or does not start with a reference, and when there is
      no first stimulus to load. Trial 0 loads the memory and is never
      "same"; every later trial compares its stimulus with the memory held
      before it, and only reference trials change the memory afterwards. */
  function Parse<T(==)>(stream: seq<T>, refs: seq<bool>): (r: Result<Labels<T>, Error>)
    ensures r.Err? <==> |refs| == 0 || !refs[0] || |stream| == 0
    ensures |refs| == 0 ==> r == Err(MissingReference)
    ensures |refs| > 0 && !refs[0] ==> r == Err(FirstTrialNotReference)
    ensures |refs| > 0 && refs[0] && |stream| == 0 ==> r == Err(EmptyStimulusStream)
    ensures r.Ok? ==> WellLabelled(stream, refs, r.value)
  {
    if |refs| == 0 then Err(MissingReference)
    else if !refs[0] then Err(FirstTrialNotReference)
    else if |stream| == 0 then Err(EmptyStimulusStream)
    else
      var rest := Scan(stream, refs, 1, stream[0]);
      Ok(Labels([false] + rest.isSame, [stream[0]] + rest.inMem))
  }

  /** The step equations the interpreter's output satisfies: one label per
      zipped trial, trial 0 remembers its own stimulus and is not "same",
      later trials are "same" exactly when they show the remembered
      stimulus, and the memory moves on only after a reference trial. */
  ghost predicate WellLabelled<T>(stream: seq<T>, refs: seq<bool>, l: Labels<T>) {
    && |l.isSame| == |l.inMem| == ZippedLength(stream, refs)
    && (|l.inMem| > 0 ==> l.inMem[0] == stream[0] && !l.isSame[0])
    && (forall i :: 1 <= i < |l.isSame| ==> l.isSame[i] == (l.inMem[i] == stream[i]))
    && (forall i, k {:trigger l.inMem[i], l.inMem[k]} :: 0 <= i && k == i + 1 && k < |l.inMem| ==>
          l.inMem[k] == Next(l.inMem[i], stream[i], refs[i]))
  }

  /** Index of the last reference trial strictly before trial `i`, or 0 when
      there is none (the first trial is always a reference in a parsed
      block, so then it is simply the first trial). */
  function LastReference(refs: seq<bool>, i: nat): (j: nat)
    requires i <= |refs|
    ensures i == 0 ==> j == 0
    ensures i > 0 ==> j < i
    ensures forall k :: j < k < i ==> !refs[k]
    ensures i > 0 && refs[0] ==> refs[j]
  {
    if i == 0 then 0
    else if refs[i - 1] then i - 1
    else LastReference(refs, i - 1)
  }

  /** Closed form of the memory register: every label the interpreter
      produces is the stimulus of the last reference trial before it. */
  lemma {:induction false} InMemIsLastReference<T>(stream: seq<T>, refs: seq<bool>, l: Labels<T>, i: nat)
    requires WellLabelled(stream, refs, l)
    requires i < |l.inMem|
    ensures l.inMem[i] == stream[LastReference(refs, i)]
    ensures i > 0 ==> l.isSame[i] == (stream[LastReference(refs, i)] == stream[i])
  {
    if i > 0 {
      InMemIsLastReference(stream, refs, l, i - 1);
      assert l.inMem[i] == Next(l.inMem[i - 1], stream[i - 1], refs[i - 1]);
    }
  }

  /** Every remembered value is a stimulus that was shown on an earlier
      reference trial (or, for trial 0, the first stimulus itself). */
  lemma RememberedIsEarlierReference<T>(stream: seq<T>, refs: seq<bool>, l: Labels<T>, i: nat)
    requires |refs| > 0 && refs[0]
    requires WellLabelled(stream, refs, l)
    requires i < |l.inMem|
    ensures exists j :: 0 <= j < |refs| && (j < i || j == 0) && refs[j] && l.inMem[i] == stream[j]
  {
    InMemIsLastReference(stream, refs, l, i);
    var j := LastReference(refs, i);
    assert refs[j] && l.inMem[i] == stream[j];
  }

  /** The step equations have exactly one solution: any labelling that
      satisfies them is the interpreter's output. Together with the
      contract of `Parse` this makes `WellLabelled` a complete description
      of the interpreter. */
  lemma {:induction false} StepEquationsDetermineLabels<T>(stream: seq<T>, refs: seq<bool>, l: Labels<T>)
    requires |refs| > 0 && refs[0] && |stream| > 0
    requires WellLabelled(stream, refs, l)
    ensures Parse(stream, refs) == Ok(l)
  {
    var m := Parse(stream, refs).value;
    SolutionsAgree(stream, refs, l, m);
  }

  /** Two labellings satisfying the step equations agree everywhere. */
  lemma SolutionsAgree<T>(stream: seq<T>, refs: seq<bool>, l: Labels<T>, m: Labels<T>)
    requires WellLabelled(stream, refs, l) && WellLabelled(stream, refs, m)
    ensures l == m
  {
    forall i | 0 <= i < |l.inMem|
      ensures l.inMem[i] == m.inMem[i]
    {
      InMemIsLastReference(stream, refs, l, i);
      InMemIsLastReference(stream, refs, m, i);
    }
    assert l.inMem == m.inMem;
    forall i | 0 <= i < |l.isSame|
      ensures l.isSame[i] == m.isSame[i]
    {
      if i > 0 {
        assert l.isSame[i] == (l.inMem[i] == stream[i]);
        assert m.isSame[i] == (m.inMem[i] == stream[i]);
      }
    }
    assert l.isSame == m.isSame;
  }

  /** The closed form for every trial at once. */
  lemma LabelsFollowLastReference<T>(stream: seq<T>, refs: seq<bool>, l: Labels<T>)
    requires WellLabelled(stream, refs, l)
    ensures forall i :: 0 <= i < |l.inMem| ==> l.inMem[i] == stream[LastReference(refs, i)]
    ensures forall i :: 1 <= i < |l.isSame| ==> l.isSame[i] == (stream[LastReference(refs, i)] == stream[i])
  {
    forall i | 0 <= i < |l.inMem|
      ensures l.inMem[i] == stream[LastReference(refs, i)]
      ensures i > 0 ==> l.isSame[i] == (stream[LastReference(refs, i)] == stream[i])
    {
      InMemIsLastReference(stream, refs, l, i);
    }
  }

  /** A worked block: stimuli 0, 1, 1, 0 with references on trials 0 and 2.
      Trial 2 is compared with the 0 loaded on trial 0 before it loads its
      own 1, so only trial 3 remembers 1, and trial 3 shows 0: no trial is
      "same". */
  lemma WorkedBlock()
    ensures Parse([0, 1, 1, 0], [true, false, true, false])
            == Ok(Labels([false, false, false, false], [0, 0, 0, 1]))
  {
    var stream, refs := [0, 1, 1, 0], [true, false, true, false];
    var l := Labels([false, false, false, false], [0, 0, 0, 1]);
    assert l.isSame[1] == (l.inMem[1] == stream[1]);
    assert l.isSame[2] == (l.inMem[2] == stream[2]);
    assert l.isSame[3] == (l.inMem[3] == stream[3]);
    assert l.inMem[1] == Next(l.inMem[0], stream[0], refs[0]);
    assert l.inMem[2] == Next(l.inMem[1], stream[1], refs[1]);
    assert l.inMem[3] == Next(l.inMem[2], stream[2], refs[2]);
    StepEquationsDetermineLabels(stream, refs, l);
  }
}
