/** The closed testing phase's evaluation: dispatching a job to its handler, the
    placeholder handler that reports a random 0/1 metric once the job's sockets
    resolve, and the aggregate that `main` stores only when there are results. */
module ClosedEvaluation {
  import opened Wrappers
  import opened Binary
  import opened Jobs

  /** `process_interface_0`: the likelihoods socket and the image name must resolve;
      the reported `my_metric` is the random choice, passed in as `coin`. */
  function ProcessInterface0(job: Job, coin: Bit): (r: Result<Bit, JobError>)
    ensures r.Ok? <==> HasSlug(job.outputs, LikelihoodsSocket) && GetImageName(job.inputs, ImagesSocket).Ok?
    ensures r.Ok? ==> r.value == coin
    ensures !HasSlug(job.outputs, LikelihoodsSocket) ==> r == Err(ValueNotFound(LikelihoodsSocket))
  {
    match GetFileLocation(job.pk, job.outputs, LikelihoodsSocket)
    case Err(e) =>
      assert !HasSlug(job.outputs, LikelihoodsSocket) by {
        if HasSlug(job.outputs, LikelihoodsSocket) {
          FirstMatchExists(job.outputs, LikelihoodsSocket);
        }
      }
      Err(e)
    case Ok(_) =>
      match GetImageName(job.inputs, ImagesSocket)
      case Err(e) => Err(e)
      case Ok(_) => Ok(coin)
  }

  /** `process`: look the interface key up in the handler table, then run the handler. */
  function Process(job: Job, coin: Bit): (r: Result<Bit, JobError>)
    ensures GetInterfaceKey(job) != [ImagesSocket] ==> r == Err(UnknownInterface(GetInterfaceKey(job)))
    ensures GetInterfaceKey(job) == [ImagesSocket] ==> r == ProcessInterface0(job, coin)
  {
    match Dispatch(GetInterfaceKey(job))
    case Err(e) => Err(e)
    case Ok(StackedImages) => ProcessInterface0(job, coin)
  }

  /** `mean(result["my_metric"] for result in results)`, stored only when `results` is non-empty. */
  function Aggregate(results: seq<Bit>): (mean: Option<real>)
    ensures mean.Some? <==> |results| > 0
    ensures mean.Some? ==> mean.value * |results| as real == SumBits(results) as real
    ensures mean.Some? ==> 0.0 <= mean.value <= 1.0
  {
    if |results| == 0 then None
    else
      var n := |results| as real;
      var m := SumBits(results) as real / n;
      assert m * n == SumBits(results) as real;
      assert m <= 1.0 by {
        assert SumBits(results) as real <= n;
      }
      Some(m)
  }
}
