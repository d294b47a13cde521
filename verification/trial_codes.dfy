/** The two per-trial encodings `RefBackExp.show_trial` in exp.py derives
    from a row: the trigger code sent to the recording hardware when the
    stimulus appears, and the responses scored as correct. */
module TrialCodes {
  import opened Wrappers
  import opened Trials
  import Interpreter

  /** `10 + stim + 2 * reference`: 10 and 11 for non-reference X and O,
      12 and 13 for reference X and O. */
  function TriggerCode(stim: Stim, isRef: bool): (code: int)
    ensures 10 <= code <= 13
    ensures isRef <==> code >= 12
    ensures stim == (code - 10) % 2
  {
    10 + stim + 2 * (if isRef then 1 else 0)
  }

  /** What the receiving device reads back from a code: the stimulus and the
      reference flag, or nothing for a code outside 10..13. */
  function DecodeTrigger(code: int): (r: Option<(Stim, bool)>)
    ensures r.Some? <==> 10 <= code <= 13
  {
    if 10 <= code <= 13 then Some(((code - 10) % 2, code >= 12)) else None
  }

  /** The code `show_trial` sends for a row of the trial table. */
  function TrialTrigger(t: Trial): int {
    TriggerCode(t.row.stim, t.row.reference)
  }

  /** Decoding recovers what was encoded. */
  lemma TriggerRoundTrip(stim: Stim, isRef: bool)
    ensures DecodeTrigger(TriggerCode(stim, isRef)) == Some((stim, isRef))
  {
  }

  /** Every code the device accepts is the encoding of what it decodes to. */
  lemma DecodedTriggerRoundTrip(code: int)
    requires DecodeTrigger(code).Some?
    ensures TriggerCode(DecodeTrigger(code).value.0, DecodeTrigger(code).value.1) == code
  {
  }

  /** Different (stimulus, reference) pairs get different codes. */
  lemma {:induction false} TriggerInjective(s1: Stim, r1: bool, s2: Stim, r2: bool)
    requires TriggerCode(s1, r1) == TriggerCode(s2, r2)
    ensures s1 == s2 && r1 == r2
  {
    TriggerRoundTrip(s1, r1);
    TriggerRoundTrip(s2, r2);
  }

  /** Every trial of a generated block sends a code from which the device
      reads back the trial's drawn stimulus and generated reference flag. */
  lemma BlockTriggersDecode(c: Config, d: Draws, block: int, start: int, i: nat)
    requires DrawsOfLength(d, c.n)
    requires CreateTrials(c, d, block, start).Ok? && i < c.n
    ensures DecodeTrigger(TrialTrigger(CreateTrials(c, d, block, start).value[i]))
            == Some((d.stims[i], GenerateBlock(c, d).value.1[i]))
  {
    var t := CreateTrials(c, d, block, start).value;
    assert NumberedTable(d.stims, GenerateBlock(c, d).value.1, block, start, t);
    TriggerRoundTrip(t[i].row.stim, t[i].row.reference);
  }

  datatype Response = Yes | No

  /** The responses scored as correct on a trial: trial number 1 accepts
      either answer, every other trial only "yes" when it is "same" and only
      "no" otherwise. */
  function AcceptedResponses(t: Trial): (r: set<Response>)
    ensures r != {}
    ensures Yes in r <==> t.trial == 1 || t.row.isSame
    ensures No in r <==> t.trial == 1 || !t.row.isSame
  {
    if t.trial == 1 then {Yes, No}
    else if t.row.isSame then {Yes}
    else {No}
  }

  /** Away from trial number 1 exactly one answer is correct. */
  lemma OneAnswerAfterFirst(t: Trial)
    requires t.trial != 1
    ensures AcceptedResponses(t) == {if t.row.isSame then Yes else No}
  {
  }

  /** In a block numbered from 1, the first trial accepts any answer and
      every later trial accepts exactly one: "yes" when its stimulus is the
      one shown on the last reference trial before it. */
  lemma ResponsesFollowMemory(stream: seq<Stim>, refs: seq<bool>, block: int, i: nat)
    requires BlockTable(stream, refs).Ok?
    requires i < |stream|
    ensures i == 0 ==> AcceptedResponses(NumberTrials(BlockTable(stream, refs).value, block, 1)[i]) == {Yes, No}
    ensures i > 0 ==> AcceptedResponses(NumberTrials(BlockTable(stream, refs).value, block, 1)[i])
                      == {if stream[i] == stream[Interpreter.LastReference(refs, i)] then Yes else No}
  {
    var rows := BlockTable(stream, refs).value;
    assert TableFollowsMemory(stream, refs, rows);
    var t := NumberTrials(rows, block, 1);
    assert t[i] == Trial(1 + i, block, rows[i]);
    var remembered := stream[Interpreter.LastReference(refs, i)];
    assert rows[i].stim == stream[i] && rows[i].inMem == remembered;
    if i > 0 {
      var expected := if stream[i] == remembered then Yes else No;
      assert t[i].trial != 1;
      assert rows[i].isSame == (stream[i] == remembered);
      OneAnswerAfterFirst(t[i]);
    }
  }

  /** The "any answer" rule keys on the trial number, not on the position in
      the block: a block numbered from a later start requires "no" on its
      first trial, which can never be "same". */
  lemma FirstTrialOfLaterBlock(stream: seq<Stim>, refs: seq<bool>, block: int, start: int)
    requires BlockTable(stream, refs).Ok?
    requires |stream| > 0 && start > 1
    ensures AcceptedResponses(NumberTrials(BlockTable(stream, refs).value, block, start)[0]) == {No}
  {
    var rows := BlockTable(stream, refs).value;
    assert TableFollowsMemory(stream, refs, rows);
  }
}
