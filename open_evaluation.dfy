/** The open development phase's per-job processing: the handler that aligns a
    job's likelihoods, index by index, with the ground-truth metadata of its input
    image stack. */
module OpenEvaluation {
  import opened Wrappers
  import opened Binary
  import opened Jobs
  import Bootstrap
  import Summary
  import Metrics

  /** One sub-image of a stack in the validation metadata. */
  datatype GroundTruthEntry = GroundTruthEntry(cls: string, patientId: string, filename: string)

  /** What the handler returns for one job: four parallel lists. */
  datatype JobRecord = JobRecord(groundTruth: seq<Bit>, prediction: seq<real>, patientId: seq<string>, imageName: seq<string>)

  /** `rec` pairs each prediction with the ground-truth entry at the same index:
      label 0 exactly for class "ndbe", 1 for every other class. */
  ghost predicate Aligned(rec: JobRecord, predictions: seq<real>, gt: seq<GroundTruthEntry>)
  {
    && rec.prediction == predictions
    && |rec.groundTruth| == |predictions| && |rec.patientId| == |predictions| && |rec.imageName| == |predictions|
    && |predictions| <= |gt|
    && (forall i :: 0 <= i < |predictions| ==> (rec.groundTruth[i] == 0 <==> gt[i].cls == "ndbe"))
    && (forall i :: 0 <= i < |predictions| ==> rec.patientId[i] == gt[i].patientId)
    && (forall i :: 0 <= i < |predictions| ==> rec.imageName[i] == gt[i].filename)
  }

  /** The index loop of `process_interface_0`; reading past the end of the
      ground-truth list is the IndexError the source raises. */
  method AlignLabels(predictions: seq<real>, gt: seq<GroundTruthEntry>) returns (r: Result<JobRecord, JobError>)
    ensures r.Ok? <==> |predictions| <= |gt|
    ensures r.Ok? ==> Aligned(r.value, predictions, gt)
    ensures r.Err? ==> r.error == MetadataTooShort(|gt|)
  {
    var groundTruth: seq<Bit> := [];
    var patientId: seq<string> := [];
    var imageName: seq<string> := [];
    var idx := 0;
    while idx < |predictions|
      invariant 0 <= idx <= |predictions| && idx <= |gt|
      invariant |groundTruth| == idx && |patientId| == idx && |imageName| == idx
      invariant forall i :: 0 <= i < idx ==> (groundTruth[i] == 0 <==> gt[i].cls == "ndbe")
      invariant forall i :: 0 <= i < idx ==> patientId[i] == gt[i].patientId
      invariant forall i :: 0 <= i < idx ==> imageName[i] == gt[i].filename
    {
      if idx >= |gt| {
        return Err(MetadataTooShort(idx));
      }
      var cls := gt[idx].cls;
      if cls == "ndbe" {
        groundTruth := groundTruth + [0];
      } else {
        groundTruth := groundTruth + [1];
      }
      patientId := patientId + [gt[idx].patientId];
      imageName := imageName + [gt[idx].filename];
      idx := idx + 1;
    }
    r := Ok(JobRecord(groundTruth, predictions, patientId, imageName));
  }

  /** What `process_interface_0` promises for a job, given the output files that
      exist (`files`, location to parsed likelihoods) and the validation metadata. */
  ghost predicate Interface0Outcome(job: Job, files: map<string, seq<real>>,
                                    valMetadata: map<string, seq<GroundTruthEntry>>, r: Result<JobRecord, JobError>)
  {
    match GetFileLocation(job.pk, job.outputs, LikelihoodsSocket)
    case Err(e) => r == Err(e)
    case Ok(location) =>
      if location !in files then r == Err(FileMissing(location))
      else
        match GetImageName(job.inputs, ImagesSocket)
        case Err(e) => r == Err(e)
        case Ok(name) =>
          if name !in valMetadata then r == Err(MetadataMissing(name))
          else
            && (r.Ok? <==> |files[location]| <= |valMetadata[name]|)
            && (r.Ok? ==> Aligned(r.value, files[location], valMetadata[name]))
            && (r.Err? ==> r.error == MetadataTooShort(|valMetadata[name]|))
  }

  /** `process_interface_0` of the open phase. Reading the likelihoods file is a
      lookup in `files`; the metadata file's content is `valMetadata`. */
  method ProcessInterface0(job: Job, files: map<string, seq<real>>, valMetadata: map<string, seq<GroundTruthEntry>>)
    returns (r: Result<JobRecord, JobError>)
    ensures Interface0Outcome(job, files, valMetadata, r)
  {
    var location := GetFileLocation(job.pk, job.outputs, LikelihoodsSocket);
    if location.Err? {
      return Err(location.error);
    }
    if location.value !in files {
      return Err(FileMissing(location.value));
    }
    var likelihoods := files[location.value];
    var imageName := GetImageName(job.inputs, ImagesSocket);
    if imageName.Err? {
      return Err(imageName.error);
    }
    if imageName.value !in valMetadata {
      return Err(MetadataMissing(imageName.value));
    }
    var gtData := valMetadata[imageName.value];
    r := AlignLabels(likelihoods, gtData);
  }

  /** `process`: dispatch on the interface key, then run the handler. */
  method Process(job: Job, files: map<string, seq<real>>, valMetadata: map<string, seq<GroundTruthEntry>>)
    returns (r: Result<JobRecord, JobError>)
    ensures GetInterfaceKey(job) != [ImagesSocket] ==> r == Err(UnknownInterface(GetInterfaceKey(job)))
    ensures GetInterfaceKey(job) == [ImagesSocket] ==> Interface0Outcome(job, files, valMetadata, r)
  {
    var handler := Dispatch(GetInterfaceKey(job));
    if handler.Err? {
      return Err(handler.error);
    }
    r := ProcessInterface0(job, files, valMetadata);
  }

  // ---------- main: flatten the job records and score them ----------

  /** `np.concatenate` of each of the four lists over the job results, in result order. */
  function Flatten(results: seq<JobRecord>): (flat: JobRecord)
  {
    if |results| == 0 then JobRecord([], [], [], [])
    else
      var prev := Flatten(results[..|results| - 1]);
      var last := results[|results| - 1];
      JobRecord(prev.groundTruth + last.groundTruth, prev.prediction + last.prediction,
                prev.patientId + last.patientId, prev.imageName + last.imageName)
  }

  /** A record whose four lists have one entry per prediction, as `AlignLabels` builds them. */
  predicate Consistent(rec: JobRecord)
  {
    |rec.groundTruth| == |rec.prediction| == |rec.patientId| == |rec.imageName|
  }

  /** Flattening consistent records gives a consistent record with one entry per
      prediction of every result. */
  lemma {:induction false} FlattenConsistent(results: seq<JobRecord>)
    requires forall k :: 0 <= k < |results| ==> Consistent(results[k])
    ensures Consistent(Flatten(results))
  {
    if |results| > 0 {
      FlattenConsistent(results[..|results| - 1]);
    }
  }

  /** Records aligned by the handler are consistent. */
  lemma AlignedIsConsistent(rec: JobRecord, predictions: seq<real>, gt: seq<GroundTruthEntry>)
    requires Aligned(rec, predictions, gt)
    ensures Consistent(rec)
  {
  }

  datatype EvaluationError = NothingToConcatenate | BootstrapFailed(cause: Bootstrap.BootstrapError)

  /** The arguments `main` passes to `bootstrap_metrics`. */
  const Iterations: nat := 1000
  const SampleSize: nat := 10
  const ImbalanceRatio: nat := 100

  /** The scoring part of `main`, given the handlers' results (in whatever order the
      concurrent workers return them) and the random draws of the bootstrap. */
  method Evaluate(results: seq<JobRecord>, draws: seq<Bootstrap.Draw>) returns (r: Result<Summary.EvaluationSummary, EvaluationError>)
    requires Bootstrap.DrawsFit(draws, Iterations, SampleSize, ImbalanceRatio)
    ensures |results| == 0 ==> r == Err(NothingToConcatenate)
    ensures |results| > 0 ==>
      var flat := Flatten(results);
      match Bootstrap.BootstrapSpec(flat.groundTruth, flat.prediction, flat.patientId, Iterations, SampleSize, ImbalanceRatio, draws)
      case Ok(summary) => r == Ok(summary)
      case Err(e) => r == Err(BootstrapFailed(e))
  {
    if |results| == 0 {
      return Err(NothingToConcatenate);
    }
    var groundTruth: seq<Bit> := [];
    var prediction: seq<real> := [];
    var patientId: seq<string> := [];
    var imageName: seq<string> := [];
    var k := 0;
    while k < |results|
      invariant 0 <= k <= |results|
      invariant JobRecord(groundTruth, prediction, patientId, imageName) == Flatten(results[..k])
    {
      assert results[..k + 1][..k] == results[..k];
      groundTruth := groundTruth + results[k].groundTruth;
      prediction := prediction + results[k].prediction;
      patientId := patientId + results[k].patientId;
      imageName := imageName + results[k].imageName;
      k := k + 1;
    }
    assert results[..k] == results;
    var metrics := Bootstrap.BootstrapMetrics(groundTruth, prediction, patientId, Iterations, SampleSize, ImbalanceRatio, draws);
    if metrics.Err? {
      return Err(BootstrapFailed(metrics.error));
    }
    return Ok(metrics.value);
  }

  /** For consistent job records, the bootstrap cannot fail on lengths: neither an
      image index past the labels nor inconsistent sample sizes. */
  lemma EvaluateLengthsAgree(results: seq<JobRecord>, draws: seq<Bootstrap.Draw>)
    requires Bootstrap.DrawsFit(draws, Iterations, SampleSize, ImbalanceRatio)
    requires forall k :: 0 <= k < |results| ==> Consistent(results[k])
    ensures var flat := Flatten(results);
      var r := Bootstrap.BootstrapSpec(flat.groundTruth, flat.prediction, flat.patientId, Iterations, SampleSize, ImbalanceRatio, draws);
      r != Err(Bootstrap.IndexOutOfRange) && r != Err(Bootstrap.FullDataset(Metrics.InconsistentLengths))
  {
    FlattenConsistent(results);
    var flat := Flatten(results);
    Bootstrap.NoLengthErrors(flat.groundTruth, flat.prediction, flat.patientId, Iterations, SampleSize, ImbalanceRatio, draws);
  }
}
