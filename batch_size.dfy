/** The batch-size adjustment at the end of Wrapper.process_training_data
    (cca_zoo/deep.py). The configured batch size is raised one step at a time
    until numSubjects % batchSize >= latentDims. The test is on the remainder
    of the total subject count; the batches of an epoch are cut from the
    training and the validation part, whose sizes it does not look at. */
module BatchSize {

  function Max(a: int, b: int): int {
    if a < b then b else a
  }

  /** The batch size the adjustment loop settles on, starting from `requested`:
      the least size c >= requested with numSubjects % c >= latentDims. It is
      never above numSubjects + 1, because any size larger than numSubjects
      leaves numSubjects itself as the remainder. */
  function AdjustedBatchSize(numSubjects: nat, latentDims: int, requested: int): (c: int)
    requires requested >= 1
    requires latentDims <= numSubjects
    ensures requested <= c <= Max(requested, numSubjects + 1)
    ensures numSubjects % c >= latentDims
    ensures forall d :: requested <= d < c ==> numSubjects % d < latentDims
    decreases numSubjects + 1 - requested
  {
    if numSubjects % requested >= latentDims then
      requested
    else
      AdjustedBatchSize(numSubjects, latentDims, requested + 1)
  }

  /** With fewer subjects than latent dimensions no batch size passes the test,
      so the adjustment loop would run forever: this is why latentDims <= numSubjects
      is required of it. */
  lemma TooFewSubjectsNeverSatisfied(numSubjects: nat, latentDims: int, c: int)
    requires numSubjects < latentDims && c >= 1
    ensures numSubjects % c < latentDims
  {
    if numSubjects < c {
      assert numSubjects % c == numSubjects;
    } else {
      assert numSubjects % c < c <= numSubjects;
    }
  }

  /** The remainder test is about all subjects, not about the parts that are
      batched. With 20 subjects, 3 latent dimensions and a requested size of 4
      the size becomes 7; a training part of 16 rows then ends in a batch of 2,
      below latentDims. And with 2 latent dimensions the size 4, which divides
      20 into full batches, is still raised, to 6. */
  lemma RemainderTestIgnoresTheParts()
    ensures AdjustedBatchSize(20, 3, 4) == 7 && 16 % 7 < 3
    ensures 20 % 4 == 0 && AdjustedBatchSize(20, 2, 4) == 6
  {
    assert 20 % 4 < 3 && 20 % 5 < 3 && 20 % 6 < 3 && 20 % 7 >= 3;
    assert 20 % 5 < 2 && 20 % 6 >= 2;
  }
}
