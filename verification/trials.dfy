/** Assembly of one block's trial table: drawing the block
    (`generate_ref_back_block`), labelling it (`create_block_dataframe`) and
    numbering its rows (`RefBackExp.create_trials`), all in exp.py. The
    random draws are inputs; the table is a sequence of records. */
module Trials {
  import opened Wrappers
  import opened Rounding
  import opened Interpreter
  import RefStream

  /** A stimulus index: 0 shows "X", 1 shows "O". */
  type Stim = x: int | 0 <= x <= 1

  /** One row of the block table, before numbering. */
  datatype Row = Row(stim: Stim, reference: bool, isSame: bool, inMem: Stim)

  /** A numbered row of the experiment's trial table. */
  datatype Trial = Trial(trial: int, block: int, row: Row)

  /** The generator's parameters: `n_trials`, `same_prop_wanted`, `n_rep`. */
  datatype Config = Config(n: nat, p: Ratio, nRep: nat)

  /** The parameters every block of the experiment is generated with. */
  const SourceConfig := Config(60, Ratio(3, 4), 10000)

  /** The random draws of one block: the stimulus stream, the initial
      reference draw and the supply of candidate reference draws. */
  datatype Draws = Draws(stims: seq<Stim>, initial: seq<bool>, candidates: seq<seq<bool>>)

  predicate DrawsOfLength(d: Draws, m: nat) {
    |d.stims| == m && |d.initial| == m && RefStream.AllOfLength(d.candidates, m)
  }

  /** The configuration the corrected generator accepts: at least two
      trials, a proportion in [0, 1] and a positive search budget. */
  predicate ValidConfig(c: Config) {
    c.n >= 2 && InUnitInterval(c.p) && c.nRep > 0
  }

  /** `generate_ref_back_block` with the parameters honoured: the stimulus
      stream and the reference stream both have `n` trials and the
      reference stream starts with a reference. */
  function GenerateBlock(c: Config, d: Draws): (r: Result<(seq<Stim>, seq<bool>), Error>)
    requires DrawsOfLength(d, c.n)
    ensures r.Err? <==> !ValidConfig(c)
    ensures r.Ok? ==> r.value.0 == d.stims && |r.value.1| == c.n && r.value.1[0]
  {
    var s :- RefStream.CreateRefStream(c.n, c.p, c.nRep, d.initial, d.candidates);
    Ok((d.stims, s.stream))
  }

  /** `generate_ref_back_block` as exp.py writes it: 60 stimuli and a
      reference stream searched with the default proportion and budget. */
  function GenerateBlockAsWritten(n: int, d: Draws): (r: Result<(seq<Stim>, seq<bool>), Error>)
    requires DrawsOfLength(d, RefStream.SourceDrawLength)
    ensures r.Err? <==> n == 1
    ensures r.Ok? ==> r.value.0 == d.stims && |r.value.1| == RefStream.SourceDrawLength
  {
    var s :- RefStream.CreateRefStreamAsWritten(n, SourceConfig.p, SourceConfig.nRep, d.initial, d.candidates);
    Ok((d.stims, s.stream))
  }

  /** What every row of a block table says: its stimulus and reference flag
      come from the streams, it remembers the stimulus of the last reference
      trial before it, and it is "same" exactly when it is not the first
      trial and shows what it remembers. */
  ghost predicate TableFollowsMemory(stream: seq<Stim>, refs: seq<bool>, rows: seq<Row>) {
    && |rows| == |stream| == |refs|
    && forall i :: 0 <= i < |rows| ==>
         && rows[i].stim == stream[i]
         && rows[i].reference == refs[i]
         && rows[i].inMem == stream[LastReference(refs, i)]
         && rows[i].isSame == (i > 0 && rows[i].stim == rows[i].inMem)
  }

  /** `create_block_dataframe`: the interpreter's labels zipped with the
      streams. It fails where the interpreter fails, and when the columns
      differ in length, as the data frame constructor does. */
  function BlockTable(stream: seq<Stim>, refs: seq<bool>): (r: Result<seq<Row>, Error>)
    ensures r.Err? <==> Parse(stream, refs).Err? || |stream| != |refs|
    ensures Parse(stream, refs).Err? ==> r == Err(Parse(stream, refs).error)
    ensures Parse(stream, refs).Ok? && |stream| != |refs| ==> r == Err(ColumnLengthMismatch)
    ensures r.Ok? ==> TableFollowsMemory(stream, refs, r.value)
  {
    var l :- Parse(stream, refs);
    if |stream| != |refs| then Err(ColumnLengthMismatch)
    else
      LabelsFollowLastReference(stream, refs, l);
      Ok(seq(|stream|, i requires 0 <= i < |stream| => Row(stream[i], refs[i], l.isSame[i], l.inMem[i])))
  }

  /** The description is complete: a table that follows the memory rule for
      two streams is the one `BlockTable` builds from them. */
  lemma {:induction false} TableDeterminedByStreams(stream: seq<Stim>, refs: seq<bool>, rows: seq<Row>)
    requires |refs| > 0 && refs[0]
    requires TableFollowsMemory(stream, refs, rows)
    ensures BlockTable(stream, refs) == Ok(rows)
  {
    var t := BlockTable(stream, refs);
    assert Parse(stream, refs).Ok?;
    assert t.Ok?;
    var built := t.value;
    assert TableFollowsMemory(stream, refs, built);
    forall i | 0 <= i < |rows|
      ensures rows[i] == built[i]
    {
      assert rows[i].stim == built[i].stim;
      assert rows[i].reference == built[i].reference;
      assert rows[i].inMem == built[i].inMem;
      assert rows[i].isSame == built[i].isSame;
    }
    assert rows == built;
  }

  /** `create_trials`: rows numbered `start, start + 1, ...` in order, every
      row tagged with the block number. */
  function NumberTrials(rows: seq<Row>, block: int, start: int): (r: seq<Trial>)
    ensures |r| == |rows|
    ensures forall i :: 0 <= i < |r| ==> r[i] == Trial(start + i, block, rows[i])
    decreases |rows|
  {
    if |rows| == 0 then []
    else [Trial(start, block, rows[0])] + NumberTrials(rows[1..], block, start + 1)
  }

  /** Numbering two blocks separately, the second from where the first
      stopped, numbers them as one run of trials. */
  lemma {:induction false} NumberingConcatenates(a: seq<Row>, b: seq<Row>, block: int, start: int)
    ensures NumberTrials(a + b, block, start) == NumberTrials(a, block, start) + NumberTrials(b, block, start + |a|)
  {
    var whole := NumberTrials(a + b, block, start);
    var first := NumberTrials(a, block, start);
    var second := NumberTrials(b, block, start + |a|);
    forall i | 0 <= i < |whole|
      ensures whole[i] == (first + second)[i]
    {
      assert whole[i] == Trial(start + i, block, (a + b)[i]);
      if i < |a| {
        assert (first + second)[i] == first[i] == Trial(start + i, block, a[i]);
      } else {
        assert (first + second)[i] == second[i - |a|] == Trial(start + |a| + (i - |a|), block, b[i - |a|]);
      }
    }
    assert whole == first + second;
  }

  /** The rows keep their order and contents; trial numbers are contiguous
      and strictly increasing. */
  lemma TrialNumbersContiguous(rows: seq<Row>, block: int, start: int, i: nat, j: nat)
    requires i <= j < |rows|
    ensures NumberTrials(rows, block, start)[j].trial - NumberTrials(rows, block, start)[i].trial == j - i
    ensures i < j ==> NumberTrials(rows, block, start)[i].trial < NumberTrials(rows, block, start)[j].trial
  {
  }

  /** What a numbered block table says about every row: its trial number
      counts from `start`, it carries the block number, its stimulus and
      reference flag come from the streams, it remembers the stimulus of
      the last reference trial before it, and it is "same" exactly when it
      is not the first trial and shows what it remembers. */
  ghost predicate NumberedTable(stims: seq<Stim>, refs: seq<bool>, block: int, start: int, t: seq<Trial>) {
    && |t| == |stims| == |refs|
    && forall i :: 0 <= i < |t| ==>
         && t[i].trial == start + i
         && t[i].block == block
         && t[i].row.stim == stims[i]
         && t[i].row.reference == refs[i]
         && t[i].row.inMem == stims[LastReference(refs, i)]
         && t[i].row.isSame == (i > 0 && t[i].row.stim == t[i].row.inMem)
  }

  /** Numbering a block table built from two streams gives a numbered table
      that follows the memory rule over those streams. */
  lemma NumberedBlockTable(stims: seq<Stim>, refs: seq<bool>, block: int, start: int)
    requires BlockTable(stims, refs).Ok?
    ensures NumberedTable(stims, refs, block, start, NumberTrials(BlockTable(stims, refs).value, block, start))
  {
    var rows := BlockTable(stims, refs).value;
    assert TableFollowsMemory(stims, refs, rows);
    var t := NumberTrials(rows, block, start);
    forall i | 0 <= i < |t|
      ensures t[i] == Trial(start + i, block, rows[i])
    {
    }
  }

  /** `RefBackExp.create_trials` for one block, with the generator's
      parameters honoured. A valid configuration always yields a table: `n`
      numbered trials of the given block, the first a reference, each row
      labelled by the memory rule over the generated streams. */
  function CreateTrials(c: Config, d: Draws, block: int, start: int): (r: Result<seq<Trial>, Error>)
    requires DrawsOfLength(d, c.n)
    ensures r.Err? <==> !ValidConfig(c)
    ensures r.Err? ==> r == Err(GenerateBlock(c, d).error)
    ensures r.Ok? ==> |r.value| == c.n && r.value[0].row.reference
    ensures r.Ok? ==> NumberedTable(d.stims, GenerateBlock(c, d).value.1, block, start, r.value)
  {
    var streams :- GenerateBlock(c, d);
    match BlockTable(streams.0, streams.1)
    case Ok(rows) =>
      NumberedBlockTable(streams.0, streams.1, block, start);
      Ok(NumberTrials(rows, block, start))
    case Err(e) => Err(e)
  }

  /** `RefBackExp.create_trials` as exp.py writes it: the block always comes
      from `generate_ref_back_block` with its default of 60 trials. It fails
      exactly when the searched reference stream starts with a
      non-reference, on the interpreter's assertion. */
  function CreateTrialsAsWritten(d: Draws, block: int, start: int): (r: Result<seq<Trial>, Error>)
    requires DrawsOfLength(d, RefStream.SourceDrawLength)
    ensures r.Err? <==> !GenerateBlockAsWritten(SourceConfig.n, d).value.1[0]
    ensures r.Err? ==> r.error == FirstTrialNotReference
    ensures r.Ok? ==> |r.value| == RefStream.SourceDrawLength
    ensures r.Ok? ==> NumberedTable(d.stims, GenerateBlockAsWritten(SourceConfig.n, d).value.1, block, start, r.value)
  {
    var streams := GenerateBlockAsWritten(SourceConfig.n, d).value;
    match BlockTable(streams.0, streams.1)
    case Ok(rows) =>
      NumberedBlockTable(streams.0, streams.1, block, start);
      Ok(NumberTrials(rows, block, start))
    case Err(e) => Err(e)
  }

  /** The unforced initial draw breaks a block: with the experiment's own
      parameters, an initial draw that no candidate can beat and that starts
      with a non-reference makes the interpreter's assertion fail. */
  lemma UnforcedInitialBreaksBlock(stims: seq<Stim>, cands: seq<seq<bool>>, block: int, start: int)
    requires |stims| == RefStream.SourceDrawLength && RefStream.AllOfLength(cands, RefStream.SourceDrawLength)
    ensures CreateTrialsAsWritten(Draws(stims, RefStream.UnforcedBestDraw(), cands), block, start)
            == Err(FirstTrialNotReference)
  {
    RefStream.UnforcedInitialIsReturned(SourceConfig.nRep, cands);
  }

  /** `generate_ref_back_block` ignores `n_trials` when drawing: asked for 4
      trials it returns 60 stimuli and 60 reference flags, so a table built
      from them has 60 rows. */
  lemma AsWrittenBlockIgnoresTrialCount(d: Draws)
    requires DrawsOfLength(d, RefStream.SourceDrawLength)
    ensures GenerateBlockAsWritten(4, d).Ok?
    ensures |GenerateBlockAsWritten(4, d).value.0| == |GenerateBlockAsWritten(4, d).value.1| == 60
    ensures BlockTable(GenerateBlockAsWritten(4, d).value.0, GenerateBlockAsWritten(4, d).value.1).Ok? ==>
              |BlockTable(GenerateBlockAsWritten(4, d).value.0, GenerateBlockAsWritten(4, d).value.1).value| == 60
  {
  }
}
