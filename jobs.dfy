/** The job-descriptor helpers shared, with identical code, by the evaluation
    scripts of both challenge phases: the interface key of a job, the first-match
    lookups of an image name and of a relative path, and the location of a job's
    output file inside the evaluation container. */
module Jobs {
  import opened Wrappers
  import Sorting
  import Paths

  /** One socket value of a job: the socket's slug and relative path, and the
      name of the image it carries (`null` for values that carry no image). */
  datatype SocketValue = SocketValue(slug: string, relativePath: string, image: Option<string>)

  datatype Job = Job(pk: string, inputs: seq<SocketValue>, outputs: seq<SocketValue>)

  /** Everything that aborts the processing of one job. */
  datatype JobError =
    | ImageNotFound(slug: string)        // RuntimeError "Image with interface ... not found!"
    | ValueNotFound(slug: string)        // RuntimeError "Value with interface ... not found!"
    | NoImage(slug: string)              // the matching value's "image" is null: TypeError
    | UnknownInterface(key: seq<string>) // KeyError in the handler table
    | FileMissing(path: string)          // the output file cannot be opened
    | MetadataMissing(imageName: string) // RuntimeError "Image name ... not found in validation metadata!"
    | MetadataTooShort(index: nat)       // IndexError on the ground-truth list

  const InputDirectory: string := "/input"
  const ImagesSocket: string := "stacked-barretts-esophagus-endoscopy-images"
  const LikelihoodsSocket: string := "stacked-neoplastic-lesion-likelihoods"

  /** `[sv["interface"]["slug"] for sv in values]`. */
  function Slugs(values: seq<SocketValue>): (r: seq<string>)
    ensures |r| == |values| && forall i :: 0 <= i < |values| ==> r[i] == values[i].slug
  {
    if |values| == 0 then [] else [values[0].slug] + Slugs(values[1..])
  }

  /** `tuple(sorted(socket_slugs))`: the input slugs in ascending order. */
  function GetInterfaceKey(job: Job): (key: seq<string>)
    ensures Sorting.StringsSorted(key)
    ensures multiset(key) == multiset(Slugs(job.inputs))
  {
    Sorting.SortStrings(Slugs(job.inputs))
  }

  /** Position `i` holds the first value whose slug is `slug`. */
  ghost predicate IsFirstMatch(values: seq<SocketValue>, slug: string, i: nat)
  {
    i < |values| && values[i].slug == slug && forall j :: 0 <= j < i ==> values[j].slug != slug
  }

  ghost predicate HasSlug(values: seq<SocketValue>, slug: string)
  {
    exists i :: 0 <= i < |values| && values[i].slug == slug
  }

  /** A slug that occurs has a first occurrence. */
  lemma {:induction false} FirstMatchExists(values: seq<SocketValue>, slug: string)
    requires HasSlug(values, slug)
    ensures exists i: nat :: IsFirstMatch(values, slug, i)
  {
    if values[0].slug == slug {
      assert IsFirstMatch(values, slug, 0);
    } else {
      var k :| 0 <= k < |values| && values[k].slug == slug;
      assert values[1..][k - 1].slug == slug;
      FirstMatchExists(values[1..], slug);
      var i: nat :| IsFirstMatch(values[1..], slug, i);
      assert IsFirstMatch(values, slug, i + 1);
    }
  }

  /** `get_image_name`: the image name of the first value with the slug. */
  function GetImageName(values: seq<SocketValue>, slug: string): (r: Result<string, JobError>)
    ensures !HasSlug(values, slug) ==> r == Err(ImageNotFound(slug))
    ensures forall i: nat :: IsFirstMatch(values, slug, i) ==>
      r == (if values[i].image.Some? then Ok(values[i].image.value) else Err(NoImage(slug)))
  {
    if |values| == 0 then Err(ImageNotFound(slug))
    else if values[0].slug == slug then
      assert IsFirstMatch(values, slug, 0);
      match values[0].image
      case Some(name) => Ok(name)
      case None => Err(NoImage(slug))
    else
      var r := GetImageName(values[1..], slug);
      assert forall i: nat :: IsFirstMatch(values, slug, i) ==> i > 0 && IsFirstMatch(values[1..], slug, i - 1);
      assert HasSlug(values[1..], slug) ==> HasSlug(values, slug) by {
        if HasSlug(values[1..], slug) {
          var k :| 0 <= k < |values[1..]| && values[1..][k].slug == slug;
          assert values[k + 1].slug == slug;
        }
      }
      r
  }

  /** `get_interface_relative_path`: the relative path of the first value with the slug. */
  function GetInterfaceRelativePath(values: seq<SocketValue>, slug: string): (r: Result<string, JobError>)
    ensures !HasSlug(values, slug) ==> r == Err(ValueNotFound(slug))
    ensures forall i: nat :: IsFirstMatch(values, slug, i) ==> r == Ok(values[i].relativePath)
  {
    if |values| == 0 then Err(ValueNotFound(slug))
    else if values[0].slug == slug then
      assert IsFirstMatch(values, slug, 0);
      Ok(values[0].relativePath)
    else
      var r := GetInterfaceRelativePath(values[1..], slug);
      assert forall i: nat :: IsFirstMatch(values, slug, i) ==> i > 0 && IsFirstMatch(values[1..], slug, i - 1);
      assert HasSlug(values[1..], slug) ==> HasSlug(values, slug) by {
        if HasSlug(values[1..], slug) {
          var k :| 0 <= k < |values[1..]| && values[1..][k].slug == slug;
          assert values[k + 1].slug == slug;
        }
      }
      r
  }

  /** A path component that pathlib appends with one separator. */
  predicate Relative(part: string)
  {
    |part| > 0 && part[0] != '/' && part[|part| - 1] != '/'
  }

  /** A non-empty component that does not start at the root. */
  predicate NotRooted(part: string)
  {
    |part| > 0 && part[0] != '/'
  }

  /** `get_file_location`: `INPUT_DIRECTORY / job_pk / "output" / relative_path`. */
  function GetFileLocation(jobPk: string, values: seq<SocketValue>, slug: string): (r: Result<string, JobError>)
    ensures !HasSlug(values, slug) ==> r == Err(ValueNotFound(slug))
    ensures forall i: nat :: IsFirstMatch(values, slug, i) && Relative(jobPk) && NotRooted(values[i].relativePath) ==>
      r == Ok(InputDirectory + "/" + jobPk + "/output/" + values[i].relativePath)
  {
    match GetInterfaceRelativePath(values, slug)
    case Err(e) => Err(e)
    case Ok(rel) =>
      var jobDir := Paths.PosixJoin(InputDirectory, jobPk);
      var outDir := Paths.PosixJoin(jobDir, "output");
      assert Relative(jobPk) ==> jobDir == InputDirectory + "/" + jobPk;
      assert Relative(jobPk) ==> outDir == InputDirectory + "/" + jobPk + "/output";
      assert NotRooted(rel) ==> Paths.PosixJoin(outDir, rel) == outDir + "/" + rel;
      assert forall pk: string, x: string ::
        (InputDirectory + "/" + pk + "/output" + "/" + x == InputDirectory + "/" + pk + "/output/" + x);
      Ok(Paths.PosixJoin(outDir, rel))
  }

  /** The interfaces that have a handler. */
  datatype Interface = StackedImages

  /** The handler table of `process`: only the single-socket key of the image stack is known. */
  function Dispatch(key: seq<string>): (r: Result<Interface, JobError>)
    ensures r.Ok? <==> key == [ImagesSocket]
    ensures r.Err? ==> r.error == UnknownInterface(key)
  {
    if key == [ImagesSocket] then Ok(StackedImages) else Err(UnknownInterface(key))
  }

  /** A job is dispatched exactly when its inputs are one value on the image-stack socket,
      whatever else the job carries. */
  lemma DispatchAcceptsOnlyImageStack(job: Job)
    ensures Dispatch(GetInterfaceKey(job)).Ok? <==> multiset(Slugs(job.inputs)) == multiset{ImagesSocket}
  {
    var key := GetInterfaceKey(job);
    if multiset(Slugs(job.inputs)) == multiset{ImagesSocket} {
      assert |key| == |multiset(key)| == 1;
      assert key[0] in multiset(key);
      assert key == [key[0]];
    }
  }
}
