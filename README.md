# cca_zoo deep wrapper: data preparation and early stopping in Dafny

This project models the orchestration logic of `Wrapper` in `cca_zoo/deep.py`,
the training wrapper for deep CCA models (DCCAE, DVCCA). The model has three parts:

- **Subject split.** `process_training_data` shuffles the subject indices 0 .. n-1
  and cuts them into training and validation indices. It then records, for
  every view in argument order, a training mean and the training and validation
  rows (module `Partition`, and `Deep.Wrapper.ProcessTrainingData`).
- **Batch-size adjustment.** `process_training_data` then raises `batch_size`
  one step at a time until `num_subjects % batch_size >= latent_dims`
  (module `BatchSize`).
- **Epoch loop of `fit`.** The loop keeps the best validation loss, which starts
  at the sentinel `latent_dims`. It snapshots the network on every strict
  improvement and counts epochs without improvement. When that count reaches
  `patience` it stops and restores the snapshot. It also keeps the
  training and validation loss histories (module `EarlyStopping`, and
  `Deep.Wrapper.Fit`).

Everything numeric or foreign is an input or is left abstract:

- The random shuffle is any permutation of 0 .. n-1 (`Partition.IsShuffle`).
- The split point is a parameter `split` with `0 <= split <= n`.
- Epoch `e`'s training and validation losses are `trainLosses[e]` and `valLosses[e]`.
- A network's parameters are named by the epoch whose training pass produced
  them (`AfterEpoch(e)`), or `Initial` for the freshly built network.
- A column mean is recorded only as the rows it is taken over
  (`MeanOf(rows)`). A centred block is recorded as its rows and the mean
  subtracted from them (`Centered(rows, mean)`).

`EarlyStopping.Step` and `EarlyStopping.Run` are a value-level reference for
the loop body and for a run of the loop. `Deep.Wrapper.Fit` is proved to end in
exactly the state `Run` gives. The loop's properties are proved about `Run`
against definitions that do not mention `Step`:

- `Improves`: epoch `i` is strictly below the sentinel and below every earlier loss.
- `LastImprovement`: the last such epoch.
- `IsRunningMin`: the least of the sentinel and the losses seen.
- `StopsAt`: epoch `e` lies exactly `patience` epochs after the last improvement.

Behaviour of the code worth knowing:

- The code stores the training-subset mean in `dataset_means`. It subtracts
  the mean of the whole view (all rows) from both the training and the
  validation rows (cca_zoo/deep.py:68-70). It does not centre by the
  training mean.
- The code does not guard the batch-size loop. With fewer subjects than latent
  dimensions it never ends (cca_zoo/deep.py:74-75).
  `BatchSize.TooFewSubjectsNeverSatisfied` shows why. The model therefore
  requires `latentDims <= n`.
- The batch-size test is on the remainder of the total subject count
  (cca_zoo/deep.py:74). The batches of an epoch, however, are cut from the
  training part and the validation part (cca_zoo/deep.py:81-85). So the last
  batch of a part can still hold fewer than `latent_dims` samples. Also, a size
  that divides n, and so leaves no partial batch, is still raised.
  `BatchSize.RemainderTestIgnoresTheParts` shows both: with n = 20,
  latent_dims = 3 and batch size 4 the size becomes 7, and a training part of
  16 rows then ends in a batch of 2.
- `patience` is compared with `==` after an increment (cca_zoo/deep.py:134-136).
  So `patience <= 0` never stops the loop.
- When the epoch budget runs out without early stopping, the best snapshot is
  not restored (cca_zoo/deep.py:118-142).

## Model

| member | source | states |
|---|---|---|
| `Deep.Wrapper.constructor` | cca_zoo/deep.py:33-56 | The configuration (latent_dims, epoch_num, batch_size, patience) is stored as given. The per-view lists start empty. |
| `Deep.Wrapper.ProcessTrainingData` | cca_zoo/deep.py:58-75 | Training indices are the first `split` entries of the shuffle and validation indices are the rest. For each view, in argument order, exactly one entry is added to each list: the mean over the training rows, the training rows and the validation rows, both centred by the whole view's mean. Every train entry has `split` rows and every val entry has `n - split` rows. `batchSize` ends at `AdjustedBatchSize` of the configured value. The live network is unchanged. |
| `Deep.Wrapper.Fit` | cca_zoo/deep.py:77-142 | The per-view lists and `batchSize` end as `ProcessTrainingData` leaves them. The live network and the two loss histories end exactly as `EarlyStopping.Run` over `Budget(epochNum)` epochs. The histories are equally long, at most the budget, and hold the losses in epoch order. After an early stop the network is the snapshot of the last strictly improving epoch (the untrained network if none improved). Otherwise every epoch ran and the network is the last epoch's. |
| `Partition.SelectPicksRows` | cca_zoo/deep.py:68-70 | Indexing a view by an index array (`dataset[inds]`) gives one row per index, in index order, and the row at position i is the view's row `inds[i]`. Only rows of the view are picked. |
| `Partition.PermutationIsShuffle` | cca_zoo/deep.py:61-62 | Every rearrangement of `np.arange(n)`, so every result of the in-place shuffle, is n distinct indices below n. |
| `Partition.ShuffleOccurrences` | cca_zoo/deep.py:61-62 | A shuffle of 0 .. n-1 (n distinct indices below n) contains every index below n exactly once and nothing else. It holds the same entries as `np.arange(n)`. |
| `Partition.SplitPartitionsSubjects` | cca_zoo/deep.py:61-63 | Training indices followed by validation indices give back the shuffle. There are `split` training and `n - split` validation indices. Every subject is in exactly one part, exactly once. No index outside 0 .. n-1 is in either part. |
| `Partition.EveryRowLandsOnce` | cca_zoo/deep.py:63-70 | In every view, the training rows followed by the validation rows are a rearrangement of the view's first n rows. |
| `BatchSize.AdjustedBatchSize` | cca_zoo/deep.py:74-75 | The size the loop settles on is at least the requested one and satisfies `n % size >= latentDims`. Every size from the requested one up to it fails that test, so it is the least size that passes. It is at most `max(requested, n + 1)`. |
| `BatchSize.TooFewSubjectsNeverSatisfied` | cca_zoo/deep.py:74-75 | If n < latentDims, every batch size >= 1 fails the test, so the loop would never end. |
| `BatchSize.RemainderTestIgnoresTheParts` | cca_zoo/deep.py:74-85 | With n = 20, latent_dims = 3 and batch size 4 the loop settles on 7, yet 16 training rows end in a batch of 2 < 3. With latent_dims = 2 the size 4, which divides 20 exactly, is still raised to 6. |
| `EarlyStopping.Step` | cca_zoo/deep.py:119-142 | After early stopping, a pass changes nothing. Otherwise both histories grow by this epoch's losses, and the best loss becomes the smaller of the old best and this loss. When this pass stops the run, the loss did not beat the best and the snapshot is restored. When the run goes on, the live network is this epoch's. |
| `EarlyStopping.Run` | cca_zoo/deep.py:118-142 | After any number of passes, both histories have the same length, at most the number of passes, and the best loss is at most the sentinel `latent_dims`. |
| `EarlyStopping.LastImprovement` | cca_zoo/deep.py:127-134 | The result is -1 or an epoch that strictly beats the sentinel and every earlier loss, and no later epoch does. |
| `EarlyStopping.BeatsMinIffImproves` | cca_zoo/deep.py:127-128 | The test `loss < min_val_loss` against the running minimum holds exactly when the epoch strictly improves on the sentinel and on all earlier losses. |
| `EarlyStopping.StepKeepsReached` | cca_zoo/deep.py:118-142 | One pass of the loop body keeps every fact of `Reached` true one epoch further on: histories, minimum, counter, snapshot, stop flag and live network. |
| `EarlyStopping.RunReached` | cca_zoo/deep.py:109-142 | After any number of passes, the loop state satisfies `Reached` in terms of the losses seen. |
| `EarlyStopping.RunHistory` | cca_zoo/deep.py:115-142 | `all_train_loss` and `all_val_loss` have equal length, at most the budget. They are the first losses in epoch order. Without an early stop their length is the budget. |
| `EarlyStopping.RunMinValLoss` | cca_zoo/deep.py:112-128 | `min_val_loss` is at most `latent_dims` and at most every validation loss of an executed epoch. It is `latent_dims` itself or one of those losses. |
| `EarlyStopping.MinValLossNeverIncreases` | cca_zoo/deep.py:127-128 | `min_val_loss` after a later epoch is never above its value after an earlier one. |
| `EarlyStopping.RunCounterAndSnapshot` | cca_zoo/deep.py:113-138 | `epochs_no_improve` counts the executed epochs after the last strict improvement. `best_model` is that epoch's network, or the initial one. `early_stop` implies the counter equals a positive patience. A running loop's counter is below patience, or patience <= 0. |
| `EarlyStopping.RunFinalModel` | cca_zoo/deep.py:109-139 | After an early stop, the live network is the snapshot of the last strictly improving epoch, or the initial network. If the budget runs out first, it is the last epoch's network and is not restored. |
| `EarlyStopping.StoppedRunIsFrozen` | cca_zoo/deep.py:118-119 | Once `early_stop` is set, no later epoch changes any part of the state. |
| `EarlyStopping.NextPassStopsIff` | cca_zoo/deep.py:127-138 | From a loop that has not stopped, the next epoch sets `early_stop` exactly when it lies `patience` epochs (patience >= 1) after the last strict improvement. |
| `EarlyStopping.EarlyStopIff` | cca_zoo/deep.py:131-138 | The loop stops within the budget exactly when some epoch before the budget lies exactly `patience` epochs (patience >= 1) after the last strict improvement. |
| `EarlyStopping.EarlyStopEpoch` | cca_zoo/deep.py:131-138 | When the loop stops, it stops at the last executed epoch, which equals (last improving epoch) + patience. That is the first epoch where the stop condition holds. |
| `EarlyStopping.NonPositivePatienceNeverStops` | cca_zoo/deep.py:134-138 | With patience <= 0 the loop never stops early. It runs the whole budget and leaves the last epoch's network live. |
| `EarlyStopping.ConvergedRunKeepsLastModel` | cca_zoo/deep.py:118-142 | A concrete run shows the asymmetry. Epoch 0 is best, but the budget runs out and the live network stays that of epoch 1. |
| `EarlyStopping.SentinelHidesLossesAboveIt` | cca_zoo/deep.py:112-139 | A concrete run with latent_dims = 2 and losses 3.0, 2.5 shows the sentinel at work. Neither epoch improves, the loop stops after epoch 1 with patience 2, and it restores the untrained network. |

## Left out

- Network construction for the `method` tags, and the calls to `update_weights`, `forward`, `loss`, `encode_*` and `decode_*` (cca_zoo/deep.py:91-106, 153-171). These are foreign torch models, so their losses are inputs. The DGCCA branch refers to a module that is not imported, and the DCCAE/DVCCA modules are not part of this model.
- Averaging losses in `train_epoch` and `val_epoch`. This is float arithmetic on foreign values. Each epoch's loss is an opaque `real`.
- Mean and centring arithmetic (cca_zoo/deep.py:68-70). It is recorded only as which rows are averaged and which mean is subtracted.
- `predict_corr`, `transform_view`, `predict_view` and `recon_loss` (cca_zoo/deep.py:173-267). They use sklearn CCA, `np.corrcoef`, foreign encoders and decoders, and float normalisation. `transform_view` and `recon_loss` also read `X_mean` and `Y_mean`, which are never set. `fit`'s final call to `predict_corr` (cca_zoo/deep.py:145-149) is omitted for the same reasons.
- `np.random.shuffle` and the float rounding `round(0.8 * n)`. The shuffle is a permutation input and the split point is an input in 0 .. n.
- Printing, plotting, device selection, copying of `state_dict`, and building `TensorDataset`/`DataLoader`. A snapshot is the `ModelState` value itself.
- Deep.Wrapper.ProcessTrainingData: requires `batchSize >= 1`. With 0 the source fails on a division by zero. With a negative value it either raises the same error or leaves a negative batch size, and that behaviour is not modelled.
- Deep.Wrapper.ProcessTrainingData: requires every view to have at least as many rows as the first. With fewer, numpy's row indexing raises an error, and that path is not modelled.
- Deep.Wrapper.Fit: returns the two loss histories, which the source passes only to the plot, and not `self`. The network and the three per-view lists, which the source first creates in `fit` and `process_training_data` (cca_zoo/deep.py:64-66), are initialised by the constructor here.
- Deep.Wrapper.Fit: requires exactly two views. With any other number the source fails while building the network or unpacking a batch (cca_zoo/deep.py:93, 156, 166), and that error is not modelled.
- Deep.Wrapper.Fit: requires both parts to be non-empty when at least one epoch runs. With an empty part `train_epoch` or `val_epoch` divides by zero batches (cca_zoo/deep.py:160, 171), and that error is not modelled. The split point `round(0.8 * n)` gives an empty part for every n <= 2.
- Deep.Wrapper.ProcessTrainingData: requires at least one view. With none the source fails on `args[0]` (cca_zoo/deep.py:60), and that error is not modelled.
- Losses are finite reals. A NaN validation loss never passes the `<` test in the source and counts as no improvement. The reference definitions `Improves` and `IsRunningMin` assume every loss is ordered, so NaN and infinities are not modelled.
