/** The training wrapper of cca_zoo/deep.py: preparing the data
    (process_training_data) and the epoch loop with early stopping (fit).

    The network, its losses and the plotting are not modelled: the shuffle,
    the split point and the per-epoch losses are inputs, and the network's
    parameters are named by EarlyStopping.ModelState. */
module Deep {
  import opened Partition
  import opened BatchSize
  import opened EarlyStopping

  /** A per-feature column mean. Only the rows it is taken over are recorded;
      the arithmetic is not modelled. */
  datatype Mean = MeanOf(rows: View)

  /** Rows with a column mean subtracted from each of them. */
  datatype Centered = Centered(rows: View, shift: Mean)

  class Wrapper {
    const latentDims: int
    const epochNum: int
    const patience: int
    /** Raised by ProcessTrainingData until numSubjects % batchSize >= latentDims. */
    var batchSize: int
    var datasetListTrain: seq<Centered>
    var datasetListVal: seq<Centered>
    var datasetMeans: seq<Mean>
    /** The live network. */
    var model: ModelState

    constructor (latentDims: int, epochNum: int, batchSize: int, patience: int)
      ensures this.latentDims == latentDims && this.epochNum == epochNum
      ensures this.batchSize == batchSize && this.patience == patience
      ensures datasetListTrain == [] && datasetListVal == [] && datasetMeans == []
      ensures model == Initial
    {
      this.latentDims := latentDims;
      this.epochNum := epochNum;
      this.batchSize := batchSize;
      this.patience := patience;
      datasetListTrain, datasetListVal, datasetMeans := [], [], [];
      model := Initial;
    }

    /** Splits the subjects into training and validation indices at `split`
        along the given shuffle of 0 .. n-1 (n the row count of the first
        view), records for every view, in argument order, the training mean and
        the training and validation rows centred by the mean of the whole view,
        then raises batchSize to the least value not below the configured one
        that leaves a remainder of at least latentDims when it divides the
        total number of subjects. */
    method ProcessTrainingData(views: seq<View>, shuffled: seq<int>, split: nat)
      returns (trainInds: seq<int>, valInds: seq<int>)
      requires |views| >= 1
      requires forall j :: 0 <= j < |views| ==> |views[0]| <= |views[j]|
      requires IsShuffle(shuffled, |views[0]|) && split <= |views[0]|
      requires batchSize >= 1 && latentDims <= |views[0]|
      modifies this
      ensures trainInds == shuffled[..split] && valInds == shuffled[split..]
      ensures |datasetMeans| == |datasetListTrain| == |datasetListVal| == |views|
      ensures forall i :: 0 <= i < |views| ==>
        && datasetMeans[i] == MeanOf(Select(views[i], trainInds))
        && datasetListTrain[i] == Centered(Select(views[i], trainInds), MeanOf(views[i]))
        && datasetListVal[i] == Centered(Select(views[i], valInds), MeanOf(views[i]))
      ensures forall i :: 0 <= i < |views| ==>
        |datasetListTrain[i].rows| == split && |datasetListVal[i].rows| == |views[0]| - split
      ensures batchSize == AdjustedBatchSize(|views[0]|, latentDims, old(batchSize))
      ensures model == old(model)
    {
      var numSubjects := |views[0]|;
      trainInds, valInds := shuffled[..split], shuffled[split..];
      datasetListTrain, datasetListVal, datasetMeans := [], [], [];
      for i := 0 to |views|
        invariant |datasetMeans| == |datasetListTrain| == |datasetListVal| == i
        invariant forall j :: 0 <= j < i ==>
          && datasetMeans[j] == MeanOf(Select(views[j], trainInds))
          && datasetListTrain[j] == Centered(Select(views[j], trainInds), MeanOf(views[j]))
          && datasetListVal[j] == Centered(Select(views[j], valInds), MeanOf(views[j]))
        invariant batchSize == old(batchSize) && model == old(model)
      {
        var dataset := views[i];
        datasetMeans := datasetMeans + [MeanOf(Select(dataset, trainInds))];
        datasetListTrain := datasetListTrain + [Centered(Select(dataset, trainInds), MeanOf(dataset))];
        datasetListVal := datasetListVal + [Centered(Select(dataset, valInds), MeanOf(dataset))];
      }
      while numSubjects % batchSize < latentDims
        invariant old(batchSize) <= batchSize
        invariant AdjustedBatchSize(numSubjects, latentDims, batchSize)
               == AdjustedBatchSize(numSubjects, latentDims, old(batchSize))
        modifies this`batchSize
        decreases numSubjects + 1 - batchSize
      {
        batchSize := batchSize + 1;
      }
    }

    /** Prepares the data, builds a fresh network, and runs the epoch loop over
        Budget(epochNum) epochs, taking epoch e's losses from trainLosses[e] and
        valLosses[e]. Returns the loss histories handed to the plot. The
        network takes exactly two views, and an epoch averages over the batches
        of both parts, so neither part may be empty once an epoch runs. */
    method Fit(views: seq<View>, shuffled: seq<int>, split: nat,
               trainLosses: seq<real>, valLosses: seq<real>)
      returns (allTrainLoss: seq<real>, allValLoss: seq<real>)
      requires |views| == 2
      requires forall j :: 0 <= j < |views| ==> |views[0]| <= |views[j]|
      requires IsShuffle(shuffled, |views[0]|) && split <= |views[0]|
      requires Budget(epochNum) > 0 ==> 0 < split < |views[0]|
      requires batchSize >= 1 && latentDims <= |views[0]|
      requires Budget(epochNum) <= |trainLosses| && Budget(epochNum) <= |valLosses|
      modifies this
      ensures |datasetMeans| == |datasetListTrain| == |datasetListVal| == |views|
      ensures forall i :: 0 <= i < |views| ==>
        && datasetMeans[i] == MeanOf(Select(views[i], shuffled[..split]))
        && datasetListTrain[i] == Centered(Select(views[i], shuffled[..split]), MeanOf(views[i]))
        && datasetListVal[i] == Centered(Select(views[i], shuffled[split..]), MeanOf(views[i]))
      ensures batchSize == AdjustedBatchSize(|views[0]|, latentDims, old(batchSize))
      ensures var r := Run(latentDims, patience, trainLosses, valLosses, Budget(epochNum));
        model == r.model && allTrainLoss == r.allTrainLoss && allValLoss == r.allValLoss
      ensures |allTrainLoss| == |allValLoss| <= Budget(epochNum)
      ensures allTrainLoss == trainLosses[..|allTrainLoss|] && allValLoss == valLosses[..|allValLoss|]
      ensures var r := Run(latentDims, patience, trainLosses, valLosses, Budget(epochNum));
        && (r.earlyStop ==> model == ModelAt(LastImprovement(latentDims as real, allValLoss)))
        && (!r.earlyStop ==> |allValLoss| == Budget(epochNum) && model == ModelAt(Budget(epochNum) - 1))
    {
      var _, _ := ProcessTrainingData(views, shuffled, split);
      ghost var means, train, val := datasetMeans, datasetListTrain, datasetListVal;
      model := Initial;
      var bestModel := model;
      var minValLoss := latentDims as real;
      var epochsNoImprove := 0;
      var earlyStop := false;
      allTrainLoss, allValLoss := [], [];
      for epoch := 0 to Budget(epochNum)
        invariant LoopState(minValLoss, epochsNoImprove, earlyStop, bestModel, model, allTrainLoss, allValLoss)
               == Run(latentDims, patience, trainLosses, valLosses, epoch)
        invariant batchSize == AdjustedBatchSize(|views[0]|, latentDims, old(batchSize))
        invariant datasetMeans == means && datasetListTrain == train && datasetListVal == val
      {
        if !earlyStop {
          var epochTrainLoss := trainLosses[epoch];
          model := AfterEpoch(epoch);
          var epochValLoss := valLosses[epoch];
          if epochValLoss < minValLoss {
            minValLoss := epochValLoss;
            bestModel := model;
            epochsNoImprove := 0;
          } else {
            epochsNoImprove := epochsNoImprove + 1;
            if epochsNoImprove == patience {
              earlyStop := true;
              model := bestModel;
            }
          }
          allTrainLoss := allTrainLoss + [epochTrainLoss];
          allValLoss := allValLoss + [epochValLoss];
        }
      }
      RunHistory(latentDims, patience, trainLosses, valLosses, Budget(epochNum));
      RunFinalModel(latentDims, patience, trainLosses, valLosses, Budget(epochNum));
    }
  }
}
