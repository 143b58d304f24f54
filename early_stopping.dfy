/** The epoch loop of Wrapper.fit (cca_zoo/deep.py) as a state machine over
    values: what one pass of the loop body does (Step) and where a run of
    `epochs` passes ends (Run).

    Per-epoch losses come from the network and are inputs here, indexed by
    epoch. A network's parameters are named by the epoch whose training
    produced them, or Initial for the freshly built network. Losses are only
    compared with strict `<`, so nothing numeric beyond that is needed. */
module EarlyStopping {

  /** The parameters of the network: untrained, or as left by the training pass of an epoch. */
  datatype ModelState = Initial | AfterEpoch(epoch: nat)

  /** The locals of the epoch loop, plus the live network's parameters. */
  datatype LoopState = LoopState(
    minValLoss: real,         // best validation loss so far (starts at the sentinel)
    epochsNoImprove: int,     // epochs since the last strict improvement
    earlyStop: bool,
    bestModel: ModelState,    // snapshot taken at the last strict improvement
    model: ModelState,        // the live network
    allTrainLoss: seq<real>,
    allValLoss: seq<real>)

  /** How many epochs `range(epochNum)` runs. */
  function Budget(epochNum: int): nat {
    if epochNum < 0 then 0 else epochNum
  }

  /** The state before the first epoch: the sentinel latentDims as best loss,
      the untrained network both live and as snapshot. */
  function Start(latentDims: int): LoopState {
    LoopState(latentDims as real, 0, false, Initial, Initial, [], [])
  }

  /** One pass of the loop body for epoch `epoch`. Once early stopping has
      fired the pass does nothing. Otherwise the epoch trains the network;
      a strictly better validation loss becomes the best and is snapshotted,
      any other loss counts one more epoch without improvement, and the
      count reaching `patience` stops the run and restores the snapshot. */
  function Step(s: LoopState, epoch: nat, trainLoss: real, valLoss: real, patience: int): (r: LoopState)
    ensures s.earlyStop ==> r == s
    ensures !s.earlyStop ==>
      && r.allTrainLoss == s.allTrainLoss + [trainLoss]
      && r.allValLoss == s.allValLoss + [valLoss]
      && r.minValLoss <= s.minValLoss && r.minValLoss <= valLoss
      && (r.minValLoss == s.minValLoss || r.minValLoss == valLoss)
    ensures !s.earlyStop && r.earlyStop ==> r.model == s.bestModel && !(valLoss < s.minValLoss)
    ensures !r.earlyStop ==> r.model == AfterEpoch(epoch)
  {
    if s.earlyStop then s
    else
      var trained := AfterEpoch(epoch);
      var s' :=
        if valLoss < s.minValLoss then
          s.(minValLoss := valLoss, bestModel := trained, epochsNoImprove := 0, model := trained)
        else if s.epochsNoImprove + 1 == patience then
          s.(epochsNoImprove := patience, earlyStop := true, model := s.bestModel)
        else
          s.(epochsNoImprove := s.epochsNoImprove + 1, model := trained);
      s'.(allTrainLoss := s.allTrainLoss + [trainLoss], allValLoss := s.allValLoss + [valLoss])
  }

  /** The state after the first `epochs` passes of the loop. */
  function Run(latentDims: int, patience: int, trainLosses: seq<real>, valLosses: seq<real>, epochs: nat): (r: LoopState)
    requires epochs <= |trainLosses| && epochs <= |valLosses|
    ensures |r.allTrainLoss| == |r.allValLoss| <= epochs
    ensures r.minValLoss <= latentDims as real
  {
    if epochs == 0 then Start(latentDims)
    else
      Step(Run(latentDims, patience, trainLosses, valLosses, epochs - 1),
           epochs - 1, trainLosses[epochs - 1], valLosses[epochs - 1], patience)
  }

  // ---------------------------------------------------------------------------
  // A reference description of the run, independent of Step.

  /** Epoch i strictly beats the sentinel and every earlier validation loss. */
  predicate Improves(sentinel: real, vals: seq<real>, i: int)
    requires 0 <= i < |vals|
  {
    vals[i] < sentinel && forall j :: 0 <= j < i ==> vals[i] < vals[j]
  }

  /** The last strictly improving epoch among `vals`, or -1 if none improved. */
  function LastImprovement(sentinel: real, vals: seq<real>): (k: int)
    ensures -1 <= k < |vals|
    ensures k >= 0 ==> Improves(sentinel, vals, k)
    ensures forall i :: k < i < |vals| ==> !Improves(sentinel, vals, i)
  {
    if vals == [] then -1
    else if Improves(sentinel, vals, |vals| - 1) then |vals| - 1
    else
      var k := LastImprovement(sentinel, vals[..|vals| - 1]);
      assert forall i :: 0 <= i < |vals| - 1 ==>
        Improves(sentinel, vals[..|vals| - 1], i) == Improves(sentinel, vals, i);
      k
  }

  /** The parameters snapshotted at epoch k, or the untrained ones for k = -1. */
  function ModelAt(k: int): ModelState {
    if k < 0 then Initial else AfterEpoch(k)
  }

  /** m is the least of the sentinel and the losses in vals. */
  predicate IsRunningMin(m: real, sentinel: real, vals: seq<real>) {
    && m <= sentinel
    && (forall i :: 0 <= i < |vals| ==> m <= vals[i])
    && (m == sentinel || m in vals)
  }

  /** Early stopping fires at epoch e: patience is positive and exactly
      `patience` epochs have passed since the last strict improvement. */
  predicate StopsAt(latentDims: int, patience: int, vals: seq<real>, e: int)
    requires 0 <= e < |vals|
  {
    patience >= 1 && e - LastImprovement(latentDims as real, vals[..e + 1]) == patience
  }

  /** What holds of the state after `epochs` passes, in the terms above. */
  ghost predicate Reached(s: LoopState, latentDims: int, patience: int,
                          trainLosses: seq<real>, valLosses: seq<real>, epochs: nat)
  {
    var t := |s.allValLoss|;
    var sentinel := latentDims as real;
    var last := LastImprovement(sentinel, s.allValLoss);
    && t <= epochs <= |trainLosses| && epochs <= |valLosses|
    && s.allTrainLoss == trainLosses[..t]
    && s.allValLoss == valLosses[..t]
    && IsRunningMin(s.minValLoss, sentinel, s.allValLoss)
    && s.epochsNoImprove == t - 1 - last
    && s.bestModel == ModelAt(last)
    && (s.earlyStop ==> patience >= 1 && s.epochsNoImprove == patience && s.model == s.bestModel)
    && (!s.earlyStop ==> t == epochs && s.model == ModelAt(t - 1))
    && (!s.earlyStop ==> patience <= 0 || s.epochsNoImprove < patience)
  }

  /** A strictly smaller loss than the running minimum is exactly a strict improvement. */
  lemma BeatsMinIffImproves(m: real, sentinel: real, vals: seq<real>, v: real)
    requires IsRunningMin(m, sentinel, vals)
    ensures v < m <==> Improves(sentinel, vals + [v], |vals|)
  {
    var vals' := vals + [v];
    if v < m {
      forall j | 0 <= j < |vals|
        ensures v < vals'[j]
      {
        assert vals'[j] == vals[j];
      }
    } else if m != sentinel {
      var j :| 0 <= j < |vals| && vals[j] == m;
      assert vals'[j] == m;
    }
  }

  /** Appending a loss moves the last improvement to it exactly when it improves. */
  lemma LastImprovementAppend(sentinel: real, vals: seq<real>, v: real)
    ensures LastImprovement(sentinel, vals + [v])
         == if Improves(sentinel, vals + [v], |vals|) then |vals| else LastImprovement(sentinel, vals)
  {
    assert (vals + [v])[..|vals|] == vals;
  }

  /** One pass keeps the description true, one epoch further on. */
  lemma StepKeepsReached(s: LoopState, latentDims: int, patience: int,
                         trainLosses: seq<real>, valLosses: seq<real>, epochs: nat)
    requires Reached(s, latentDims, patience, trainLosses, valLosses, epochs)
    requires epochs < |trainLosses| && epochs < |valLosses|
    ensures Reached(Step(s, epochs, trainLosses[epochs], valLosses[epochs], patience),
                    latentDims, patience, trainLosses, valLosses, epochs + 1)
  {
    if !s.earlyStop {
      var sentinel := latentDims as real;
      var v := valLosses[epochs];
      var r := Step(s, epochs, trainLosses[epochs], valLosses[epochs], patience);
      assert r.allValLoss == valLosses[..epochs + 1];
      assert r.allTrainLoss == trainLosses[..epochs + 1];
      BeatsMinIffImproves(s.minValLoss, sentinel, s.allValLoss, v);
      LastImprovementAppend(sentinel, s.allValLoss, v);
      RunningMinAppend(s.minValLoss, sentinel, s.allValLoss, v);
      var last := LastImprovement(sentinel, s.allValLoss);
      if v < s.minValLoss {
        assert LastImprovement(sentinel, r.allValLoss) == epochs;
        assert r.minValLoss == v && r.epochsNoImprove == 0 && r.bestModel == AfterEpoch(epochs);
        assert !r.earlyStop && r.model == AfterEpoch(epochs);
      } else {
        assert LastImprovement(sentinel, r.allValLoss) == last;
        assert r.minValLoss == s.minValLoss && r.bestModel == s.bestModel;
        assert r.epochsNoImprove == s.epochsNoImprove + 1;
        if s.epochsNoImprove + 1 == patience {
          assert r.earlyStop && r.model == s.bestModel;
        } else {
          assert !r.earlyStop && r.model == AfterEpoch(epochs);
        }
      }
    }
  }

  /** The running minimum after one more loss is the smaller of the old one and that loss. */
  lemma RunningMinAppend(m: real, sentinel: real, vals: seq<real>, v: real)
    requires IsRunningMin(m, sentinel, vals)
    ensures IsRunningMin(if v < m then v else m, sentinel, vals + [v])
  {
    assert forall i :: 0 <= i < |vals| ==> (vals + [v])[i] == vals[i];
  }

  /** The description holds after every number of passes. */
  lemma {:induction false} RunReached(latentDims: int, patience: int,
                                      trainLosses: seq<real>, valLosses: seq<real>, epochs: nat)
    requires epochs <= |trainLosses| && epochs <= |valLosses|
    ensures Reached(Run(latentDims, patience, trainLosses, valLosses, epochs),
                    latentDims, patience, trainLosses, valLosses, epochs)
  {
    if epochs > 0 {
      RunReached(latentDims, patience, trainLosses, valLosses, epochs - 1);
      StepKeepsReached(Run(latentDims, patience, trainLosses, valLosses, epochs - 1),
                       latentDims, patience, trainLosses, valLosses, epochs - 1);
    }
  }

  // ---------------------------------------------------------------------------
  // The properties of the loop, each about every run.

  /** Both loss histories grow by one entry per executed epoch, in epoch order;
      every budgeted epoch is executed unless early stopping fired. */
  lemma {:induction false} RunHistory(latentDims: int, patience: int, trainLosses: seq<real>, valLosses: seq<real>, epochs: nat)
    requires epochs <= |trainLosses| && epochs <= |valLosses|
    ensures var r := Run(latentDims, patience, trainLosses, valLosses, epochs);
      && |r.allTrainLoss| == |r.allValLoss| <= epochs
      && r.allTrainLoss == trainLosses[..|r.allTrainLoss|]
      && r.allValLoss == valLosses[..|r.allValLoss|]
      && (!r.earlyStop ==> |r.allValLoss| == epochs)
  {
    RunReached(latentDims, patience, trainLosses, valLosses, epochs);
  }

  /** The best validation loss is the least of the sentinel latentDims and
      every validation loss of an executed epoch. */
  lemma {:induction false} RunMinValLoss(latentDims: int, patience: int, trainLosses: seq<real>, valLosses: seq<real>, epochs: nat)
    requires epochs <= |trainLosses| && epochs <= |valLosses|
    ensures var r := Run(latentDims, patience, trainLosses, valLosses, epochs);
      && r.minValLoss <= latentDims as real
      && (forall i :: 0 <= i < |r.allValLoss| ==> r.minValLoss <= r.allValLoss[i])
      && (r.minValLoss == latentDims as real || r.minValLoss in r.allValLoss)
  {
    RunReached(latentDims, patience, trainLosses, valLosses, epochs);
  }

  /** The best validation loss never increases from one epoch to a later one. */
  lemma {:induction false} MinValLossNeverIncreases(latentDims: int, patience: int,
                                                    trainLosses: seq<real>, valLosses: seq<real>,
                                                    early: nat, late: nat)
    requires early <= late <= |trainLosses| && late <= |valLosses|
    ensures Run(latentDims, patience, trainLosses, valLosses, late).minValLoss
         <= Run(latentDims, patience, trainLosses, valLosses, early).minValLoss
    decreases late
  {
    if early < late {
      MinValLossNeverIncreases(latentDims, patience, trainLosses, valLosses, early, late - 1);
    }
  }

  /** The no-improvement counter is the number of executed epochs after the
      last strict improvement (after the start if none improved), and the
      snapshot is the network of that improving epoch. The stop flag is set
      exactly when the counter has reached patience; a running loop's counter
      is below patience (or patience is not positive). */
  lemma RunCounterAndSnapshot(latentDims: int, patience: int, trainLosses: seq<real>, valLosses: seq<real>, epochs: nat)
    requires epochs <= |trainLosses| && epochs <= |valLosses|
    ensures var r := Run(latentDims, patience, trainLosses, valLosses, epochs);
      var last := LastImprovement(latentDims as real, r.allValLoss);
      && r.epochsNoImprove == |r.allValLoss| - 1 - last
      && r.bestModel == ModelAt(last)
      && (r.earlyStop ==> 1 <= patience == r.epochsNoImprove)
      && (!r.earlyStop ==> patience <= 0 || r.epochsNoImprove < patience)
  {
    RunReached(latentDims, patience, trainLosses, valLosses, epochs);
  }

  /** Where the live network ends up: after an early stop it is the snapshot of
      the last strictly improving epoch (the untrained network if none
      improved); when the budget runs out instead, it is the last epoch's
      network and the snapshot is not restored. */
  lemma RunFinalModel(latentDims: int, patience: int, trainLosses: seq<real>, valLosses: seq<real>, epochs: nat)
    requires epochs <= |trainLosses| && epochs <= |valLosses|
    ensures var r := Run(latentDims, patience, trainLosses, valLosses, epochs);
      && (r.earlyStop ==> r.model == ModelAt(LastImprovement(latentDims as real, r.allValLoss)))
      && (!r.earlyStop ==> r.model == ModelAt(epochs - 1))
  {
    RunReached(latentDims, patience, trainLosses, valLosses, epochs);
  }

  /** Once early stopping has fired, no later epoch changes anything. */
  lemma {:induction false} StoppedRunIsFrozen(latentDims: int, patience: int,
                                              trainLosses: seq<real>, valLosses: seq<real>,
                                              early: nat, late: nat)
    requires early <= late <= |trainLosses| && late <= |valLosses|
    requires Run(latentDims, patience, trainLosses, valLosses, early).earlyStop
    ensures Run(latentDims, patience, trainLosses, valLosses, late)
         == Run(latentDims, patience, trainLosses, valLosses, early)
    decreases late
  {
    if early < late {
      StoppedRunIsFrozen(latentDims, patience, trainLosses, valLosses, early, late - 1);
    }
  }

  /** From a run that has not stopped after `epochs` passes, the next pass
      stops exactly when its epoch satisfies StopsAt. */
  lemma NextPassStopsIff(latentDims: int, patience: int,
                         trainLosses: seq<real>, valLosses: seq<real>, epochs: nat)
    requires epochs < |trainLosses| && epochs < |valLosses|
    requires !Run(latentDims, patience, trainLosses, valLosses, epochs).earlyStop
    ensures Run(latentDims, patience, trainLosses, valLosses, epochs + 1).earlyStop
        <==> StopsAt(latentDims, patience, valLosses, epochs)
  {
    var s := Run(latentDims, patience, trainLosses, valLosses, epochs);
    RunningState(latentDims, patience, trainLosses, valLosses, epochs);
    var sentinel := latentDims as real;
    var v := valLosses[epochs];
    assert valLosses[..epochs + 1] == s.allValLoss + [v];
    BeatsMinIffImproves(s.minValLoss, sentinel, s.allValLoss, v);
    LastImprovementAppend(sentinel, s.allValLoss, v);
    assert Run(latentDims, patience, trainLosses, valLosses, epochs + 1).earlyStop
       <==> !(v < s.minValLoss) && s.epochsNoImprove + 1 == patience;
  }

  /** What NextPassStopsIff needs of a run that has not stopped. */
  lemma RunningState(latentDims: int, patience: int,
                     trainLosses: seq<real>, valLosses: seq<real>, epochs: nat)
    requires epochs <= |trainLosses| && epochs <= |valLosses|
    requires !Run(latentDims, patience, trainLosses, valLosses, epochs).earlyStop
    ensures var s := Run(latentDims, patience, trainLosses, valLosses, epochs);
      && s.allValLoss == valLosses[..epochs]
      && IsRunningMin(s.minValLoss, latentDims as real, s.allValLoss)
      && s.epochsNoImprove == epochs - 1 - LastImprovement(latentDims as real, s.allValLoss)
  {
    RunReached(latentDims, patience, trainLosses, valLosses, epochs);
  }

  /** Early stopping fires within `epochs` epochs exactly when some epoch e
      before the budget has `patience` epochs behind it since the last strict
      improvement; in particular it never fires when patience <= 0. */
  lemma {:induction false} EarlyStopIff(latentDims: int, patience: int,
                                        trainLosses: seq<real>, valLosses: seq<real>, epochs: nat)
    requires epochs <= |trainLosses| && epochs <= |valLosses|
    ensures Run(latentDims, patience, trainLosses, valLosses, epochs).earlyStop
        <==> exists e :: 0 <= e < epochs && StopsAt(latentDims, patience, valLosses, e)
  {
    if epochs > 0 {
      var k := epochs - 1;
      EarlyStopIff(latentDims, patience, trainLosses, valLosses, k);
      if !Run(latentDims, patience, trainLosses, valLosses, k).earlyStop {
        NextPassStopsIff(latentDims, patience, trainLosses, valLosses, k);
      }
    }
  }

  /** When early stopping has fired, it fired at the last executed epoch, and
      that is the first epoch with `patience` epochs behind it since the last
      strict improvement: the run stops at (last improving epoch) + patience. */
  lemma {:induction false} EarlyStopEpoch(latentDims: int, patience: int,
                                          trainLosses: seq<real>, valLosses: seq<real>, epochs: nat)
    requires epochs <= |trainLosses| && epochs <= |valLosses|
    requires Run(latentDims, patience, trainLosses, valLosses, epochs).earlyStop
    ensures var r := Run(latentDims, patience, trainLosses, valLosses, epochs);
      && 1 <= |r.allValLoss| <= epochs
      && |r.allValLoss| - 1 == LastImprovement(latentDims as real, r.allValLoss) + patience
      && StopsAt(latentDims, patience, valLosses, |r.allValLoss| - 1)
      && forall e :: 0 <= e < |r.allValLoss| - 1 ==> !StopsAt(latentDims, patience, valLosses, e)
  {
    var k := epochs - 1;
    var s := Run(latentDims, patience, trainLosses, valLosses, k);
    RunReached(latentDims, patience, trainLosses, valLosses, epochs);
    if s.earlyStop {
      EarlyStopEpoch(latentDims, patience, trainLosses, valLosses, k);
    } else {
      RunHistory(latentDims, patience, trainLosses, valLosses, k);
      NextPassStopsIff(latentDims, patience, trainLosses, valLosses, k);
      EarlyStopIff(latentDims, patience, trainLosses, valLosses, k);
    }
  }

  /** With patience <= 0 the counter, which is at least 1 whenever it is
      compared, never equals patience: the loop always runs the full budget. */
  lemma NonPositivePatienceNeverStops(latentDims: int, patience: int,
                                      trainLosses: seq<real>, valLosses: seq<real>, epochs: nat)
    requires epochs <= |trainLosses| && epochs <= |valLosses|
    requires patience <= 0
    ensures var r := Run(latentDims, patience, trainLosses, valLosses, epochs);
      !r.earlyStop && |r.allValLoss| == epochs && r.model == ModelAt(epochs - 1)
  {
    RunReached(latentDims, patience, trainLosses, valLosses, epochs);
  }

  /** Running out of budget does not restore the snapshot: here epoch 0 is the
      best one, yet the network left live is that of epoch 1. */
  lemma ConvergedRunKeepsLastModel()
    ensures var r := Run(2, 10, [1.0, 1.0], [0.5, 0.9], 2);
      !r.earlyStop && r.bestModel == AfterEpoch(0) && r.model == AfterEpoch(1)
  {
  }

  /** The sentinel latentDims hides every loss not below it: with latentDims = 2
      and losses 3.0, 2.5 no epoch counts as an improvement, so with patience 2
      the run stops after epoch 1 and restores the untrained network although
      the loss went down. */
  lemma SentinelHidesLossesAboveIt()
    ensures var r := Run(2, 2, [3.0, 3.0, 3.0], [3.0, 2.5, 1.0], 3);
      r.earlyStop && r.model == Initial && r.allValLoss == [3.0, 2.5] && r.minValLoss == 2.0
  {
  }
}
