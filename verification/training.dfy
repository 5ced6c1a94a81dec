/** `WCLSTM.train`: the checks on the training marginals and the choice of the
    labelled rows before any network is built, then the epoch loop with its
    evaluation, best-on-dev checkpointing and early stopping, and the reload of
    the best checkpoint at the end. The networks' training and scoring are
    inputs: the networks after each epoch and the dev score at each epoch. */
module Training {
  import opened Wrappers
  import opened Preprocess
  import opened PyStr
  import opened Vocabulary
  import opened Persistence

  /** `Y_train`: one marginal per candidate (a 1-D array) or one row of class
      probabilities per candidate (a 2-D array of `width` columns). */
  datatype Targets = Binary(marginals: seq<real>) | Categorical(rows: seq<seq<real>>, width: nat)

  /** A 2-D array is rectangular. */
  predicate Rectangular(y: Targets) {
    y.Categorical? ==> forall i :: 0 <= i < |y.rows| ==> |y.rows[i]| == y.width
  }

  /** `Y_train.shape[1] if len(Y_train.shape) > 1 else 2`. */
  function TargetCardinality(y: Targets): nat {
    match y
    case Binary(_) => 2
    case Categorical(_, w) => w
  }

  const CardinalityMessage: string := "Training marginals cardinality does notmatch model cardinality."

  /** The cardinality check as intended: a mismatch is a `ValueError`. */
  function CheckCardinality(y: Targets, cardinality: int): (r: Result<()>)
    ensures r.Ok? <==> TargetCardinality(y) == cardinality
    ensures r.Err? ==> r.fault == ValueError(CardinalityMessage)
  {
    if TargetCardinality(y) != cardinality then Err(ValueError(CardinalityMessage)) else Ok(())
  }

  /** The cardinality check as written: the message is formatted with
      `Y_train.shape[1]`, which a 1-D array does not have, so a 1-D mismatch
      raises `IndexError` before the `ValueError` exists. */
  function CheckCardinalityAsWritten(y: Targets, cardinality: int): (r: Result<()>)
    ensures r.Ok? <==> CheckCardinality(y, cardinality).Ok?
    ensures r.Err? && y.Binary? ==> r.fault == IndexError
    ensures r.Err? && y.Categorical? ==> r == CheckCardinality(y, cardinality)
  {
    if TargetCardinality(y) == cardinality then Ok(())
    else match y
      case Binary(_) => Err(IndexError)
      case Categorical(_, _) => Err(ValueError(CardinalityMessage))
  }

  /** Binary marginals given to a three-class model: the intended `ValueError`
      is lost to an `IndexError`. */
  lemma BinaryMismatchRaisesIndexError()
    ensures CheckCardinalityAsWritten(Binary([0.5]), 3) == Err(IndexError)
    ensures CheckCardinality(Binary([0.5]), 3) == Err(ValueError(CardinalityMessage))
  {
  }

  /** Every entry of the marginals is at least 0. */
  predicate NonNegative(y: Targets) {
    match y
    case Binary(ms) => forall i :: 0 <= i < |ms| ==> ms[i] >= 0.0
    case Categorical(rows, _) => forall i, j :: 0 <= i < |rows| && 0 <= j < |rows[i]| ==> rows[i][j] >= 0.0
  }

  /** The largest entry of a non-empty row. */
  function RowMax(s: seq<real>): (r: real)
    requires |s| > 0
    ensures forall i :: 0 <= i < |s| ==> s[i] <= r
    ensures exists i :: 0 <= i < |s| && s[i] == r
  {
    if |s| == 1 then s[0]
    else
      var m := RowMax(s[1..]);
      assert forall i :: 1 <= i < |s| ==> s[i] == s[1..][i - 1];
      if s[0] >= m then s[0] else m
  }

  /** The smallest entry of a non-empty row. */
  function RowMin(s: seq<real>): (r: real)
    requires |s| > 0
    ensures forall i :: 0 <= i < |s| ==> r <= s[i]
    ensures exists i :: 0 <= i < |s| && s[i] == r
  {
    if |s| == 1 then s[0]
    else
      var m := RowMin(s[1..]);
      assert forall i :: 1 <= i < |s| ==> s[i] == s[1..][i - 1];
      if s[0] <= m then s[0] else m
  }

  /** The threshold `1e-6` below which a row counts as unlabelled. */
  const Tolerance: real := 0.000001

  /** `max(row) - min(row) > 1e-6`. */
  predicate Labelled(row: seq<real>)
    requires |row| > 0
  {
    RowMax(row) - RowMin(row) > Tolerance
  }

  /** A row is labelled exactly when two of its entries are more than the
      tolerance apart. */
  lemma LabelledIffEntriesDiffer(row: seq<real>)
    requires |row| > 0
    ensures Labelled(row) <==> exists i, j :: 0 <= i < |row| && 0 <= j < |row| && row[i] - row[j] > Tolerance
  {
    if Labelled(row) {
      var i :| 0 <= i < |row| && row[i] == RowMax(row);
      var j :| 0 <= j < |row| && row[j] == RowMin(row);
      assert row[i] - row[j] > Tolerance;
    }
  }

  /** `np.where(diffs > 1e-6)[0]` over the first `n` rows: the labelled rows, in order. */
  function LabelledRows(rows: seq<seq<real>>, n: nat): (r: seq<nat>)
    requires n <= |rows|
    requires forall i :: 0 <= i < |rows| ==> |rows[i]| > 0
    ensures forall i :: i in r <==> 0 <= i < n && Labelled(rows[i])
    ensures forall a, b :: 0 <= a < b < |r| ==> r[a] < r[b]
    ensures forall a :: 0 <= a < |r| ==> r[a] < n
  {
    if n == 0 then []
    else
      var front := LabelledRows(rows, n - 1);
      if Labelled(rows[n - 1]) then front + [n - 1] else front
  }

  /** A constant row (a candidate no labelling function voted on) is dropped,
      and a row with a clear winner is kept. */
  lemma LabelledRowsExample()
    ensures LabelledRows([[0.5, 0.5], [0.9, 0.1]], 2) == [1]
  {
    var rows := [[0.5, 0.5], [0.9, 0.1]];
    assert RowMax(rows[0]) == 0.5 && RowMin(rows[0]) == 0.5;
    assert RowMax(rows[1]) == 0.9 && RowMin(rows[1]) == 0.1;
  }

  /** `[xs[j] for j in idxs]`: an index past the end fails. */
  function Pick<T>(xs: seq<T>, idxs: seq<nat>): (r: Result<seq<T>>)
    ensures r.Ok? <==> forall k :: 0 <= k < |idxs| ==> idxs[k] < |xs|
    ensures r.Err? ==> r.fault == IndexError
    ensures r.Ok? ==> |r.value| == |idxs| && forall k :: 0 <= k < |idxs| ==> r.value[k] == xs[idxs[k]]
  {
    if forall k :: 0 <= k < |idxs| ==> idxs[k] < |xs| then Ok(seq(|idxs|, k requires 0 <= k < |idxs| => xs[idxs[k]]))
    else Err(IndexError)
  }

  /** The number of candidates `Y_train` covers: its first dimension. */
  function Count(y: Targets): nat {
    match y
    case Binary(ms) => |ms|
    case Categorical(rows, _) => |rows|
  }

  /** `Y_train[train_idxs]`. */
  function PickTargets(y: Targets, idxs: seq<nat>): (r: Result<Targets>)
    ensures r.Ok? <==> forall k :: 0 <= k < |idxs| ==> idxs[k] < Count(y)
    ensures r.Ok? ==> r.value.Binary? == y.Binary?
    ensures r.Ok? && y.Binary? ==>
      |r.value.marginals| == |idxs| && forall k :: 0 <= k < |idxs| ==> r.value.marginals[k] == y.marginals[idxs[k]]
    ensures r.Ok? && y.Categorical? ==>
      && r.value.width == y.width && |r.value.rows| == |idxs|
      && forall k :: 0 <= k < |idxs| ==> r.value.rows[k] == y.rows[idxs[k]]
  {
    match y
    case Binary(ms) =>
      var ms' :- Pick(ms, idxs);
      Ok(Binary(ms'))
    case Categorical(rows, w) =>
      var rows' :- Pick(rows, idxs);
      Ok(Categorical(rows', w))
  }

  /** The training rows `train` selects: with a binary model the indices the
      label balancer chooses (`balanced`, an input), otherwise the labelled rows.
      Reducing over a width of 0 fails, even when there are no rows: numpy
      rejects a maximum over an empty axis whatever the other dimension is. */
  function TrainIdxs(y: Targets, cardinality: int, balanced: seq<nat>): (r: Result<seq<nat>>)
    requires Rectangular(y)
    ensures cardinality == 2 ==> r == Ok(balanced)
    ensures cardinality != 2 && y.Categorical? && y.width > 0 ==> r == Ok(LabelledRows(y.rows, |y.rows|))
    ensures cardinality != 2 && y.Categorical? && y.width == 0 ==> r.Err?
    ensures cardinality != 2 && y.Categorical? && y.width > 0 && |y.rows| == 0 ==> r == Ok([])
    ensures cardinality != 2 && y.Binary? ==> r.Err?
  {
    if cardinality == 2 then Ok(balanced)
    else match y
      case Binary(_) =>
        var e: Result<seq<nat>> := Err(ValueError("axis 1 is out of bounds for array of dimension 1")); e
      case Categorical(rows, w) =>
        if w == 0 then
          var e: Result<seq<nat>> := Err(ValueError("zero-size array to reduction operation maximum which has no identity")); e
        else if |rows| == 0 then Ok([])
        else Ok(LabelledRows(rows, |rows|))
  }

  /** An empty array of width 0 given to a model of cardinality 0 passes the
      cardinality and range checks, and then fails on the row maximum. */
  lemma EmptyZeroWidthTargetsFail(xs: seq<Candidate>, balanced: seq<nat>)
    ensures TrainingSet(xs, Categorical([], 0), 0, balanced).Err?
    ensures TrainingSet(xs, Categorical([], 0), 0, balanced) != Err(ValueError(CardinalityMessage))
  {
  }

  /** The checks at the head of `train` and the selection of the training
      rows: cardinality (as intended), non-negativity, then the chosen rows of
      both the candidates and the marginals. */
  function TrainingSet(xs: seq<Candidate>, y: Targets, cardinality: int, balanced: seq<nat>)
    : (r: Result<(seq<Candidate>, Targets)>)
    requires Rectangular(y)
    ensures r.Ok? ==> TargetCardinality(y) == cardinality && NonNegative(y)
    ensures TargetCardinality(y) != cardinality ==> r == Err(ValueError(CardinalityMessage))
    ensures TargetCardinality(y) == cardinality && !NonNegative(y) ==> r == Err(ValueError("Y_train must have values in [0,1]."))
    ensures r.Ok? && cardinality == 2 ==> Pick(xs, balanced) == Ok(r.value.0)
    ensures r.Ok? && cardinality != 2 ==> y.Categorical? && y.width > 0
    ensures r.Ok? && cardinality != 2 && y.Categorical? && y.width > 0 ==>
      Pick(xs, LabelledRows(y.rows, |y.rows|)) == Ok(r.value.0)
    ensures r.Ok? && cardinality == 2 ==> PickTargets(y, balanced) == Ok(r.value.1)
    ensures r.Ok? && cardinality != 2 && y.Categorical? && y.width > 0 ==>
      PickTargets(y, LabelledRows(y.rows, |y.rows|)) == Ok(r.value.1)
  {
    var _ :- CheckCardinality(y, cardinality);
    if !NonNegative(y) then Err(ValueError("Y_train must have values in [0,1]."))
    else
      var idxs :- TrainIdxs(y, cardinality, balanced);
      var xs' :- Pick(xs, idxs);
      var y' :- PickTargets(y, idxs);
      Ok((xs', y'))
  }

  /** The arguments the epoch loop reads: `n_epochs`, `print_freq`, whether a
      dev set was given, `dev_ckpt`, `dev_ckpt_delay` and `patience`. */
  datatype LoopSettings = LoopSettings(nEpochs: int, printFreq: int, devPresent: bool, devCkpt: bool,
                                       delay: real, patience: int)

  /** `range(n_epochs)` is empty for a non-positive count. */
  function EpochCount(p: LoopSettings): nat {
    if p.nEpochs > 0 then p.nEpochs else 0
  }

  /** Epoch `idx` reports, and scores the dev set: `verbose` and either every
      `print_freq`-th epoch or the last one. */
  predicate Evaluates(p: LoopSettings, idx: nat) {
    p.printFreq > 0 && ((idx + 1) % p.printFreq == 0 || idx + 1 == p.nEpochs)
  }

  /** `idx > dev_ckpt_delay * n_epochs`, compared as reals. */
  predicate PastDelay(p: LoopSettings, idx: nat) {
    idx as real > p.delay * p.nEpochs as real
  }

  /** Epoch `idx` may checkpoint: it evaluates, there is a dev set,
      checkpointing is on and the delay has passed. */
  predicate Eligible(p: LoopSettings, idx: nat) {
    Evaluates(p, idx) && p.devPresent && p.devCkpt && PastDelay(p, idx)
  }

  /** Epoch `idx` may checkpoint and its dev score beats 0 and every earlier
      score that could have been checkpointed: the epochs a best-so-far rule
      should save. */
  ghost predicate IsRecord(p: LoopSettings, scores: nat -> real, idx: nat) {
    && Eligible(p, idx)
    && scores(idx) > 0.0
    && forall j: nat :: j < idx && Eligible(p, j) ==> scores(j) < scores(idx)
  }

  /** The early-stopping test at epoch `idx`, with `last` the epoch of the last checkpoint. */
  predicate Halts(p: LoopSettings, idx: nat, last: nat) {
    Evaluates(p, idx) && idx - last > p.patience && p.devCkpt && PastDelay(p, idx)
  }

  /** The loop's variables: `dev_score_opt`, `last_epoch_opt`, the epochs that
      saved a checkpoint, the number of epochs run, whether the loop broke,
      and the model and files as they stand. */
  datatype EpochState = EpochState(best: real, lastOpt: Option<nat>, checkpoints: seq<nat>, ran: nat,
                                   halted: bool, model: Model, store: Store)

  /** The checkpoint files under the default name hold the networks `n`. */
  ghost predicate Holds(saveDir: string, store: Store, n: (Net, Net)) {
    var dir := Join(saveDir, ClassName);
    && WordNetPath(dir, ClassName) in store && store[WordNetPath(dir, ClassName)] == NetFile(n.0)
    && CharNetPath(dir, ClassName) in store && store[CharNetPath(dir, ClassName)] == NetFile(n.1)
  }

  /** `m` carrying the networks `n`. */
  function WithNets(m: Model, n: (Net, Net)): Model {
    m.(wordNet := Some(n.0), charNet := Some(n.1))
  }

  function Last(s: seq<nat>): nat
    requires |s| > 0
  {
    s[|s| - 1]
  }

  /** What holds after every epoch: the checkpoints are exactly the record
      epochs run so far, in order; `dev_score_opt` is the last checkpoint's
      score (0 before any) and bounds every eligible score so far; the
      checkpoint files hold the networks of the last checkpoint; and the model
      carries the networks of the last epoch run. */
  ghost predicate Sound(p: LoopSettings, scores: nat -> real, nets: nat -> (Net, Net), saveDir: string,
                        m0: Model, st: EpochState) {
    && (forall i: nat :: i in st.checkpoints <==> i < st.ran && IsRecord(p, scores, i))
    && (forall a, b :: 0 <= a < b < |st.checkpoints| ==> st.checkpoints[a] < st.checkpoints[b])
    && st.best >= 0.0
    && (forall j: nat :: j < st.ran && Eligible(p, j) ==> scores(j) <= st.best)
    && (|st.checkpoints| == 0 ==> st.best == 0.0 && st.lastOpt.None?)
    && (|st.checkpoints| > 0 ==> st.best == scores(Last(st.checkpoints))
                                 && st.lastOpt == Some(Last(st.checkpoints))
                                 && Holds(saveDir, st.store, nets(Last(st.checkpoints))))
    && (st.ran == 0 ==> st.model == m0)
    && (st.ran > 0 ==> st.model == WithNets(m0, nets(st.ran - 1)))
  }

  /** One epoch: train (the networks become `nets(idx)`), and on an evaluation
      epoch checkpoint an improvement and test for early stopping. */
  function Step(p: LoopSettings, scores: nat -> real, nets: nat -> (Net, Net), saveDir: string,
                st: EpochState, idx: nat): EpochState
  {
    var m := WithNets(st.model, nets(idx));
    if !Evaluates(p, idx) then st.(ran := idx + 1, model := m)
    else
      var ckpt := Eligible(p, idx) && scores(idx) > st.best;
      var lastOpt := if ckpt then Some(idx) else st.lastOpt;
      var halt := lastOpt.Some? && Halts(p, idx, lastOpt.value);
      EpochState(if ckpt then scores(idx) else st.best, lastOpt,
                 if ckpt then st.checkpoints + [idx] else st.checkpoints,
                 idx + 1, halt, m,
                 if ckpt then Save(m, None, saveDir, true, st.store).value else st.store)
  }

  /** With the loop's invariant in place, epoch `idx` is a record exactly when
      it may checkpoint and beats `dev_score_opt`: the source's test picks the
      record epochs. */
  lemma RecordIffImproves(p: LoopSettings, scores: nat -> real, nets: nat -> (Net, Net), saveDir: string,
                          m0: Model, st: EpochState, idx: nat)
    requires Sound(p, scores, nets, saveDir, m0, st) && st.ran == idx
    ensures IsRecord(p, scores, idx) <==> Eligible(p, idx) && scores(idx) > st.best
  {
    if IsRecord(p, scores, idx) && |st.checkpoints| > 0 {
      var last := Last(st.checkpoints);
      assert last in st.checkpoints;
      assert Eligible(p, last);
    }
  }

  /** An epoch that does not evaluate only moves the networks on. */
  lemma StepQuietSound(p: LoopSettings, scores: nat -> real, nets: nat -> (Net, Net), saveDir: string,
                       m0: Model, st: EpochState, idx: nat)
    requires Sound(p, scores, nets, saveDir, m0, st) && st.ran == idx
    requires !Evaluates(p, idx)
    ensures Sound(p, scores, nets, saveDir, m0, st.(ran := idx + 1, model := WithNets(st.model, nets(idx))))
  {
  }

  /** An evaluation epoch that does not improve keeps the best score and the files. */
  lemma StepKeepSound(p: LoopSettings, scores: nat -> real, nets: nat -> (Net, Net), saveDir: string,
                      m0: Model, st: EpochState, idx: nat, halt: bool)
    requires Sound(p, scores, nets, saveDir, m0, st) && st.ran == idx
    requires !(Eligible(p, idx) && scores(idx) > st.best)
    ensures Sound(p, scores, nets, saveDir, m0,
                  EpochState(st.best, st.lastOpt, st.checkpoints, idx + 1, halt,
                             WithNets(st.model, nets(idx)), st.store))
  {
    RecordIffImproves(p, scores, nets, saveDir, m0, st, idx);
  }

  /** An evaluation epoch that improves saves a checkpoint of its networks. */
  lemma StepCheckpointSound(p: LoopSettings, scores: nat -> real, nets: nat -> (Net, Net), saveDir: string,
                            m0: Model, st: EpochState, idx: nat, halt: bool)
    requires Sound(p, scores, nets, saveDir, m0, st) && st.ran == idx
    requires Eligible(p, idx) && scores(idx) > st.best
    ensures var m := WithNets(st.model, nets(idx));
      Sound(p, scores, nets, saveDir, m0,
            EpochState(scores(idx), Some(idx), st.checkpoints + [idx], idx + 1, halt, m,
                       Save(m, None, saveDir, true, st.store).value))
  {
    var m := WithNets(st.model, nets(idx));
    var st' := EpochState(scores(idx), Some(idx), st.checkpoints + [idx], idx + 1, halt, m, Save(m, None, saveDir, true, st.store).value);
    RecordIffImproves(p, scores, nets, saveDir, m0, st, idx);
    RecordAppended(p, scores, st.checkpoints, idx);
    SaveWritesNets(m, None, saveDir, true, st.store);
    assert NameOf(None) == ClassName;
    assert Holds(saveDir, st'.store, nets(idx));
    assert Last(st'.checkpoints) == idx;
    forall j: nat | j < idx + 1 && Eligible(p, j) ensures scores(j) <= scores(idx) {
    }
    assert st'.model == WithNets(m0, nets(idx));
  }

  /** Appending the record epoch `idx` to the records before it gives the
      records up to it, still in increasing order. */
  lemma RecordAppended(p: LoopSettings, scores: nat -> real, cps: seq<nat>, idx: nat)
    requires forall i: nat :: i in cps <==> i < idx && IsRecord(p, scores, i)
    requires forall a, b :: 0 <= a < b < |cps| ==> cps[a] < cps[b]
    requires IsRecord(p, scores, idx)
    ensures forall i: nat :: i in cps + [idx] <==> i < idx + 1 && IsRecord(p, scores, i)
    ensures forall a, b :: 0 <= a < b < |cps + [idx]| ==> (cps + [idx])[a] < (cps + [idx])[b]
  {
    var cps' := cps + [idx];
    forall i: nat
      ensures i in cps' <==> i < idx + 1 && IsRecord(p, scores, i)
    {
      assert i in cps' <==> i in cps || i == idx;
    }
    forall a, b | 0 <= a < b < |cps'|
      ensures cps'[a] < cps'[b]
    {
      if b < |cps| {
        assert cps'[a] == cps[a] && cps'[b] == cps[b];
      } else {
        assert cps'[a] == cps[a] && cps[a] in cps;
      }
    }
  }

  /** One epoch keeps the invariant. */
  lemma StepSound(p: LoopSettings, scores: nat -> real, nets: nat -> (Net, Net), saveDir: string,
                  m0: Model, st: EpochState, idx: nat)
    requires Sound(p, scores, nets, saveDir, m0, st) && st.ran == idx
    ensures Sound(p, scores, nets, saveDir, m0, Step(p, scores, nets, saveDir, st, idx))
  {
    var st' := Step(p, scores, nets, saveDir, st, idx);
    if !Evaluates(p, idx) {
      StepQuietSound(p, scores, nets, saveDir, m0, st, idx);
    } else if Eligible(p, idx) && scores(idx) > st.best {
      StepCheckpointSound(p, scores, nets, saveDir, m0, st, idx, st'.halted);
    } else {
      StepKeepSound(p, scores, nets, saveDir, m0, st, idx, st'.halted);
    }
  }

  /** The first `n` epochs of the loop, stopping at the epoch that breaks it. */
  function Run(p: LoopSettings, scores: nat -> real, nets: nat -> (Net, Net), saveDir: string,
               m0: Model, store0: Store, n: nat): (st: EpochState)
    ensures st.ran <= n
    ensures !st.halted ==> st.ran == n
    ensures st.halted ==> st.ran > 0 && st.lastOpt.Some? && Halts(p, st.ran - 1, st.lastOpt.value)
    decreases n
  {
    if n == 0 then EpochState(0.0, None, [], 0, false, m0, store0)
    else
      var prev := Run(p, scores, nets, saveDir, m0, store0, n - 1);
      if prev.halted then prev else Step(p, scores, nets, saveDir, prev, n - 1)
  }

  /** Every run, broken or not, keeps the loop's invariant. */
  lemma {:induction false} RunSound(p: LoopSettings, scores: nat -> real, nets: nat -> (Net, Net), saveDir: string,
                                    m0: Model, store0: Store, n: nat)
    ensures Sound(p, scores, nets, saveDir, m0, Run(p, scores, nets, saveDir, m0, store0, n))
    decreases n
  {
    if n > 0 {
      RunSound(p, scores, nets, saveDir, m0, store0, n - 1);
      var prev := Run(p, scores, nets, saveDir, m0, store0, n - 1);
      if !prev.halted {
        StepSound(p, scores, nets, saveDir, m0, prev, n - 1);
      }
    }
  }

  /** The checkpoints of a run are evaluation epochs with a dev set, past the
      delay, and their dev scores rise strictly from one to the next. */
  lemma CheckpointsImprove(p: LoopSettings, scores: nat -> real, nets: nat -> (Net, Net), saveDir: string,
                           m0: Model, store0: Store, n: nat)
    ensures var cps := Run(p, scores, nets, saveDir, m0, store0, n).checkpoints;
      && (forall k :: 0 <= k < |cps| ==> Eligible(p, cps[k]) && cps[k] < n)
      && (forall a, b :: 0 <= a < b < |cps| ==> scores(cps[a]) < scores(cps[b]))
  {
    var st := Run(p, scores, nets, saveDir, m0, store0, n);
    RunSound(p, scores, nets, saveDir, m0, store0, n);
    var cps := st.checkpoints;
    forall k | 0 <= k < |cps|
      ensures Eligible(p, cps[k]) && cps[k] < n
    {
      assert cps[k] in cps;
    }
    forall a, b | 0 <= a < b < |cps|
      ensures scores(cps[a]) < scores(cps[b])
    {
      assert cps[a] in cps && cps[b] in cps;
      assert IsRecord(p, scores, cps[b]);
    }
  }

  /** `l` is the last record epoch among epochs `0..i`. */
  ghost predicate LastRecordAt(p: LoopSettings, scores: nat -> real, i: nat, l: nat) {
    && l <= i && IsRecord(p, scores, l)
    && forall j: nat :: l < j <= i ==> !IsRecord(p, scores, j)
  }

  /** The early-stopping test of epoch `i`, stated over the scores alone: some
      record epoch precedes it and the last one is more than `patience` epochs
      back, on an evaluation epoch past the delay with checkpointing on. */
  ghost predicate HaltTestAt(p: LoopSettings, scores: nat -> real, i: nat) {
    exists l: nat :: LastRecordAt(p, scores, i, l) && Halts(p, i, l)
  }

  /** The last of the checkpoints taken in epochs `0..top` is the last record
      epoch among them, and there is one exactly when some epoch was a record. */
  lemma LastCheckpointIsLastRecord(p: LoopSettings, scores: nat -> real, cps: seq<nat>, top: nat)
    requires forall i: nat :: i in cps <==> i <= top && IsRecord(p, scores, i)
    requires forall a, b :: 0 <= a < b < |cps| ==> cps[a] < cps[b]
    ensures |cps| > 0 ==> LastRecordAt(p, scores, top, Last(cps))
    ensures forall l: nat :: LastRecordAt(p, scores, top, l) ==> |cps| > 0 && Last(cps) == l
  {
    if |cps| > 0 {
      var last := Last(cps);
      assert last in cps;
      assert forall k :: 0 <= k < |cps| ==> cps[k] <= last;
      forall j: nat | last < j <= top
        ensures !IsRecord(p, scores, j)
      {
        assert j !in cps;
      }
    }
    forall l: nat | LastRecordAt(p, scores, top, l)
      ensures |cps| > 0 && Last(cps) == l
    {
      assert l in cps;
      var last := Last(cps);
      assert last in cps;
      assert forall k :: 0 <= k < |cps| ==> cps[k] <= last;
    }
  }

  /** From the loop's invariant, epoch `idx` breaks the loop exactly when the
      early-stopping test holds of it. */
  lemma StepHaltsIff(p: LoopSettings, scores: nat -> real, nets: nat -> (Net, Net), saveDir: string,
                     m0: Model, st: EpochState, idx: nat)
    requires Sound(p, scores, nets, saveDir, m0, st) && st.ran == idx && !st.halted
    ensures Step(p, scores, nets, saveDir, st, idx).halted <==> HaltTestAt(p, scores, idx)
  {
    var st' := Step(p, scores, nets, saveDir, st, idx);
    StepSound(p, scores, nets, saveDir, m0, st, idx);
    if Evaluates(p, idx) {
      assert forall i: nat :: i in st'.checkpoints <==> i <= idx && IsRecord(p, scores, i);
      LastCheckpointIsLastRecord(p, scores, st'.checkpoints, idx);
      assert st'.halted == (st'.lastOpt.Some? && Halts(p, idx, st'.lastOpt.value));
      if |st'.checkpoints| > 0 {
        assert st'.lastOpt == Some(Last(st'.checkpoints));
        assert LastRecordAt(p, scores, idx, Last(st'.checkpoints));
        assert st'.halted <==> Halts(p, idx, Last(st'.checkpoints));
      } else {
        assert st'.lastOpt.None?;
        assert !HaltTestAt(p, scores, idx);
      }
    }
  }

  /** The state `st` after `n` epochs stopped where the early-stopping test
      first held: it broke at an epoch whose test holds and no earlier test
      held, or it did not break and no test among the `n` epochs held. */
  ghost predicate StopsAtFirstTest(p: LoopSettings, scores: nat -> real, st: EpochState, n: nat) {
    && (!st.halted ==> forall i: nat :: i < n ==> !HaltTestAt(p, scores, i))
    && (st.halted ==> 0 < st.ran && HaltTestAt(p, scores, st.ran - 1)
                      && forall i: nat :: i < st.ran - 1 ==> !HaltTestAt(p, scores, i))
  }

  /** The loop breaks exactly at the first epoch whose early-stopping test
      holds, and runs all `n` epochs when none does. */
  lemma {:induction false} RunHaltsIff(p: LoopSettings, scores: nat -> real, nets: nat -> (Net, Net), saveDir: string,
                                       m0: Model, store0: Store, n: nat)
    ensures StopsAtFirstTest(p, scores, Run(p, scores, nets, saveDir, m0, store0, n), n)
    decreases n
  {
    if n > 0 {
      var prev := Run(p, scores, nets, saveDir, m0, store0, n - 1);
      RunHaltsIff(p, scores, nets, saveDir, m0, store0, n - 1);
      var st := Run(p, scores, nets, saveDir, m0, store0, n);
      if prev.halted {
        RunStaysHalted(p, scores, nets, saveDir, m0, store0, n - 1, n);
      } else {
        RunStepHalts(p, scores, nets, saveDir, m0, store0, n);
      }
      HaltsExtend(p, scores, prev, st, n);
    }
  }

  /** The loop of `n` epochs breaks exactly when the early-stopping test holds
      at one of them, and then after the first such epoch. */
  lemma RunBreaksIff(p: LoopSettings, scores: nat -> real, nets: nat -> (Net, Net), saveDir: string,
                     m0: Model, store0: Store, n: nat)
    ensures var st := Run(p, scores, nets, saveDir, m0, store0, n);
      && (st.halted <==> exists i: nat :: i < n && HaltTestAt(p, scores, i))
      && (st.halted ==> forall i: nat :: i < n && HaltTestAt(p, scores, i) ==> st.ran - 1 <= i)
  {
    RunHaltsIff(p, scores, nets, saveDir, m0, store0, n);
  }

  /** The induction step of `RunHaltsIff`, over the two states alone. */
  lemma HaltsExtend(p: LoopSettings, scores: nat -> real, prev: EpochState, st: EpochState, n: nat)
    requires n > 0
    requires StopsAtFirstTest(p, scores, prev, n - 1)
    requires prev.ran <= n - 1 && (!prev.halted ==> prev.ran == n - 1)
    requires prev.halted ==> st == prev
    requires !prev.halted ==> st.ran == n && (st.halted <==> HaltTestAt(p, scores, n - 1))
    ensures StopsAtFirstTest(p, scores, st, n)
  {
  }

  /** An epoch run after a loop that has not broken breaks it exactly when
      the early-stopping test holds of it. */
  lemma RunStepHalts(p: LoopSettings, scores: nat -> real, nets: nat -> (Net, Net), saveDir: string,
                     m0: Model, store0: Store, n: nat)
    requires n > 0 && !Run(p, scores, nets, saveDir, m0, store0, n - 1).halted
    ensures var st := Run(p, scores, nets, saveDir, m0, store0, n);
      st.ran == n && (st.halted <==> HaltTestAt(p, scores, n - 1))
  {
    var prev := Run(p, scores, nets, saveDir, m0, store0, n - 1);
    RunSound(p, scores, nets, saveDir, m0, store0, n - 1);
    StepHaltsIff(p, scores, nets, saveDir, m0, prev, n - 1);
  }

  /** Ten epochs, every one evaluated, no delay, patience 2, and a dev score
      that peaks at epoch 1: epochs 2 and 3 are within patience and epoch 4
      breaks the loop, after five epochs. */
  lemma PatienceExample(nets: nat -> (Net, Net), saveDir: string, m0: Model, store0: Store)
    ensures var p := LoopSettings(10, 1, true, true, 0.0, 2);
      var scores := (i: nat) => if i == 1 then 0.5 else 0.25;
      var st := Run(p, scores, nets, saveDir, m0, store0, 10);
      st.halted && st.ran == 5
  {
    var p := LoopSettings(10, 1, true, true, 0.0, 2);
    var scores := (i: nat) => if i == 1 then 0.5 else 0.25;
    var st := Run(p, scores, nets, saveDir, m0, store0, 10);
    OnlyRecordIsOne(p, scores);
    assert LastRecordAt(p, scores, 4, 1);
    assert HaltTestAt(p, scores, 4);
    forall i: nat | i < 4
      ensures !HaltTestAt(p, scores, i)
    {
      forall l: nat | LastRecordAt(p, scores, i, l)
        ensures !Halts(p, i, l)
      {
        assert l == 1;
      }
    }
    RunHaltsIff(p, scores, nets, saveDir, m0, store0, 10);
  }

  lemma OnlyRecordIsOne(p: LoopSettings, scores: nat -> real)
    requires p == LoopSettings(10, 1, true, true, 0.0, 2)
    requires forall i: nat :: scores(i) == if i == 1 then 0.5 else 0.25
    ensures forall j: nat :: IsRecord(p, scores, j) <==> j == 1
  {
    assert !Eligible(p, 0);
    assert Eligible(p, 1);
    forall j: nat | j > 1
      ensures !IsRecord(p, scores, j)
    {
      assert scores(1) == 0.5 && scores(j) == 0.25;
    }
  }

  /** `dev_ckpt and X_dev is not None and verbose and dev_score_opt > 0`. */
  predicate Reloads(p: LoopSettings, st: EpochState) {
    p.devCkpt && p.devPresent && p.printFreq > 0 && st.best > 0.0
  }

  /** The epoch loop and the closing reload of `train`: the loop over
      `range(n_epochs)` with its break, then an `only_param` load of the best
      checkpoint when one may have been taken. */
  function TrainLoop(p: LoopSettings, scores: nat -> real, nets: nat -> (Net, Net), saveDir: string,
                     m0: Model, store0: Store): (r: (EpochState, Model))
    requires ValidVocab(m0.vocab)
    ensures Sound(p, scores, nets, saveDir, m0, r.0)
    ensures r.0.ran <= EpochCount(p)
    ensures !r.0.halted ==> r.0.ran == EpochCount(p)
    ensures Reloads(p, r.0) <==> p.devCkpt && p.devPresent && p.printFreq > 0 && |r.0.checkpoints| > 0
    ensures Reloads(p, r.0) ==> r.1 == WithNets(r.0.model, nets(Last(r.0.checkpoints)))
    ensures !Reloads(p, r.0) ==> r.1 == r.0.model
  {
    var st := Run(p, scores, nets, saveDir, m0, store0, EpochCount(p));
    FinalState(p, scores, nets, saveDir, m0, store0, EpochCount(p));
    if Reloads(p, st) then
      ReloadBest(saveDir, st.store, st.model, nets(Last(st.checkpoints)));
      (st, Load(st.model, None, saveDir, true, st.store).value)
    else (st, st.model)
  }

  /** After the loop, the closing reload is due exactly when a checkpoint was
      taken under the reload's flags, the files then hold that checkpoint's
      networks, and the model still carries its vocabulary. */
  lemma FinalState(p: LoopSettings, scores: nat -> real, nets: nat -> (Net, Net), saveDir: string,
                   m0: Model, store0: Store, n: nat)
    ensures var st := Run(p, scores, nets, saveDir, m0, store0, n);
      && Sound(p, scores, nets, saveDir, m0, st)
      && (Reloads(p, st) <==> p.devCkpt && p.devPresent && p.printFreq > 0 && |st.checkpoints| > 0)
      && (|st.checkpoints| > 0 ==> Holds(saveDir, st.store, nets(Last(st.checkpoints))))
      && st.model.vocab == m0.vocab
  {
    var st := Run(p, scores, nets, saveDir, m0, store0, n);
    RunSound(p, scores, nets, saveDir, m0, store0, n);
    if |st.checkpoints| > 0 {
      assert Last(st.checkpoints) in st.checkpoints;
    }
  }

  /** The closing `only_param` load finds the checkpointed networks in place. */
  lemma ReloadBest(saveDir: string, store: Store, m: Model, n: (Net, Net))
    requires ValidVocab(m.vocab) && Holds(saveDir, store, n)
    ensures Load(m, None, saveDir, true, store) == Ok(WithNets(m, n))
  {
  }

  /** Without a dev set, without checkpointing or without evaluation, no
      checkpoint is taken, the loop never breaks early unless checkpointing is
      on, and the model keeps the networks of the last epoch. */
  lemma NoDevNoCheckpoint(p: LoopSettings, scores: nat -> real, nets: nat -> (Net, Net), saveDir: string,
                          m0: Model, store0: Store)
    requires ValidVocab(m0.vocab)
    requires !p.devPresent || !p.devCkpt || p.printFreq <= 0
    ensures var r := TrainLoop(p, scores, nets, saveDir, m0, store0);
      && r.0.checkpoints == []
      && !r.0.halted
      && r.0.ran == EpochCount(p)
      && r.1 == r.0.model
      && r.0.store == store0
  {
    var n := EpochCount(p);
    NoDevRun(p, scores, nets, saveDir, m0, store0, n);
  }

  lemma {:induction false} NoDevRun(p: LoopSettings, scores: nat -> real, nets: nat -> (Net, Net), saveDir: string,
                                    m0: Model, store0: Store, n: nat)
    requires !p.devPresent || !p.devCkpt || p.printFreq <= 0
    ensures var st := Run(p, scores, nets, saveDir, m0, store0, n);
      st.checkpoints == [] && st.lastOpt.None? && !st.halted && st.store == store0
    decreases n
  {
    if n > 0 {
      NoDevRun(p, scores, nets, saveDir, m0, store0, n - 1);
    }
  }

  /** `train`'s epoch loop as a loop: `for idx in range(n_epochs)` with the
      early-stopping `break`. It computes the fold above. */
  method RunEpochs(p: LoopSettings, scores: nat -> real, nets: nat -> (Net, Net), saveDir: string,
                   m0: Model, store0: Store) returns (st: EpochState)
    ensures st == Run(p, scores, nets, saveDir, m0, store0, EpochCount(p))
    ensures st.ran <= EpochCount(p)
  {
    st := EpochState(0.0, None, [], 0, false, m0, store0);
    var idx: nat := 0;
    while idx < EpochCount(p)
      invariant idx <= EpochCount(p)
      invariant st == Run(p, scores, nets, saveDir, m0, store0, idx)
      invariant !st.halted
    {
      st := Step(p, scores, nets, saveDir, st, idx);
      if st.halted {
        RunStaysHalted(p, scores, nets, saveDir, m0, store0, idx + 1, EpochCount(p));
        return;
      }
      idx := idx + 1;
    }
  }

  /** Once the loop has broken, further epochs change nothing. */
  lemma {:induction false} RunStaysHalted(p: LoopSettings, scores: nat -> real, nets: nat -> (Net, Net),
                                          saveDir: string, m0: Model, store0: Store, k: nat, n: nat)
    requires k <= n
    requires Run(p, scores, nets, saveDir, m0, store0, k).halted
    ensures Run(p, scores, nets, saveDir, m0, store0, n) == Run(p, scores, nets, saveDir, m0, store0, k)
    decreases n - k
  {
    if k < n {
      RunStaysHalted(p, scores, nets, saveDir, m0, store0, k, n - 1);
    }
  }
}
