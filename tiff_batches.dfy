/** `create_tiff_files.py`: collect a split's images class by class, open the ones
    that can be opened, and pack them into multi-page TIFF files of 384 pages,
    recording for every page its file name, class, position in its file and
    patient id. Opening, resizing and saving images is I/O: which paths open is
    an input (`opens`), and a saved file is recorded as its path, its pages (the
    source paths of the images, in order) and its resolution. */
module TiffBatches {
  import opened Wrappers
  import opened Strings
  import opened Paths
  import opened FileNames

  const OutputRoot: string := "E:\\RARE2025_FINAL_DATA\\test-val-split"
  const TiffOutputDir: string := "E:\\RARE2025_FINAL_DATA\\test-val-tiff"
  const BatchSize: nat := 384
  const Dpi: (nat, nat) := (300, 300)

  /** `extract_patient_id`: the patient id at the head of a file's base name, or
      "unknown" when the base name has no underscore. */
  function ExtractPatientId(filename: string): (pid: string)
  {
    match PatientPrefix(Basename(filename))
    case None => "unknown"
    case Some(pid) => pid
  }

  /** A base name without an underscore gives "unknown"; otherwise the id is the
      head of the base name up to its second underscore. */
  lemma ExtractPatientIdShape(filename: string)
    ensures '_' !in Basename(filename) ==> ExtractPatientId(filename) == "unknown"
    ensures '_' in Basename(filename) ==> IdPrefix(Basename(filename), ExtractPatientId(filename))
  {
    PatientPrefixShape(Basename(filename));
  }

  datatype ImageRecord = ImageRecord(path: string, cls: string)

  /** What the script records for one page: `batch_info` and, copied field by
      field, the metadata entry. */
  datatype PageInfo = PageInfo(filename: string, cls: string, index: nat, patientId: string)

  datatype SavedTiff = SavedTiff(path: string, pages: seq<string>, dpi: (nat, nat))

  datatype BatchOutput = BatchOutput(saved: seq<SavedTiff>, metadataPath: string, metadata: map<string, seq<PageInfo>>)

  datatype TiffError = DpiUnbound  // `dpi` read before assignment in the last-batch branch

  // ---------- collecting the images ----------

  function ClassDir(split: string, cls: string): string
  {
    WinJoin(WinJoin(OutputRoot, split), cls)
  }

  /** The image files of one class folder, in listing order, tagged with the class. */
  function ClassImages(dir: string, cls: string, names: seq<string>): (imgs: seq<ImageRecord>)
    ensures |imgs| <= |names|
    ensures forall k :: 0 <= k < |imgs| ==> imgs[k].cls == cls
  {
    if |names| == 0 then []
    else
      var name := names[|names| - 1];
      ClassImages(dir, cls, names[..|names| - 1])
        + (if HasImageExtension(name) then [ImageRecord(WinJoin(dir, name), cls)] else [])
  }

  /** `path` names an image file of the listing `names` in `dir`. */
  ghost predicate Listed(dir: string, names: seq<string>, path: string)
  {
    exists j :: 0 <= j < |names| && HasImageExtension(names[j]) && path == WinJoin(dir, names[j])
  }

  /** The collected images are exactly the image files of the listing. */
  lemma {:induction false} ClassImagesFromListing(dir: string, cls: string, names: seq<string>)
    ensures forall k :: 0 <= k < |ClassImages(dir, cls, names)| ==> Listed(dir, names, ClassImages(dir, cls, names)[k].path)
    ensures forall j :: 0 <= j < |names| && HasImageExtension(names[j]) ==>
      ImageRecord(WinJoin(dir, names[j]), cls) in ClassImages(dir, cls, names)
  {
    if |names| > 0 {
      var n := |names| - 1;
      var pre := ClassImages(dir, cls, names[..n]);
      var imgs := ClassImages(dir, cls, names);
      ClassImagesFromListing(dir, cls, names[..n]);
      assert forall j :: 0 <= j < n ==> names[..n][j] == names[j];
      forall k | 0 <= k < |imgs| ensures Listed(dir, names, imgs[k].path) {
        if k < |pre| {
          assert imgs[k] == pre[k];
          var j :| 0 <= j < n && HasImageExtension(names[..n][j]) && pre[k].path == WinJoin(dir, names[..n][j]);
          assert names[j] == names[..n][j];
        } else {
          assert HasImageExtension(names[n]) && imgs[k].path == WinJoin(dir, names[n]);
        }
      }
      forall j | 0 <= j < |names| && HasImageExtension(names[j])
        ensures ImageRecord(WinJoin(dir, names[j]), cls) in imgs
      {
        if j < n {
          assert names[..n][j] == names[j];
          assert ImageRecord(WinJoin(dir, names[j]), cls) in pre;
        } else {
          assert imgs == pre + [ImageRecord(WinJoin(dir, names[n]), cls)];
        }
      }
    }
  }

  /** `all_images`: the `neo` images, then the `ndbe` images. */
  function AllImages(split: string, neoNames: seq<string>, ndbeNames: seq<string>): seq<ImageRecord>
  {
    ClassImages(ClassDir(split, "neo"), "neo", neoNames) + ClassImages(ClassDir(split, "ndbe"), "ndbe", ndbeNames)
  }

  /** The `neo` images come first, then the `ndbe` images. */
  lemma NeoplasiaFirst(split: string, neoNames: seq<string>, ndbeNames: seq<string>)
    ensures var all := AllImages(split, neoNames, ndbeNames);
      var k := |ClassImages(ClassDir(split, "neo"), "neo", neoNames)|;
      forall i :: 0 <= i < |all| ==> all[i].cls == (if i < k then "neo" else "ndbe")
  {
    var neo := ClassImages(ClassDir(split, "neo"), "neo", neoNames);
    var ndbe := ClassImages(ClassDir(split, "ndbe"), "ndbe", ndbeNames);
    var all := AllImages(split, neoNames, ndbeNames);
    forall i | 0 <= i < |all| ensures all[i].cls == (if i < |neo| then "neo" else "ndbe") {
      if i >= |neo| {
        assert all[i] == ndbe[i - |neo|];
      }
    }
  }

  /** `for fname in os.listdir(cls_dir): if ...: all_images.append(...)`. */
  method AppendClassImages(all: seq<ImageRecord>, dir: string, cls: string, names: seq<string>)
    returns (r: seq<ImageRecord>)
    ensures r == all + ClassImages(dir, cls, names)
  {
    r := all;
    var j := 0;
    while j < |names|
      invariant 0 <= j <= |names|
      invariant r == all + ClassImages(dir, cls, names[..j])
    {
      assert names[..j + 1][..j] == names[..j];
      if HasImageExtension(names[j]) {
        r := r + [ImageRecord(WinJoin(dir, names[j]), cls)];
      }
      j := j + 1;
    }
    assert names[..j] == names;
  }

  method CollectImages(split: string, neoNames: seq<string>, ndbeNames: seq<string>) returns (all: seq<ImageRecord>)
    ensures all == AllImages(split, neoNames, ndbeNames)
  {
    all := AppendClassImages([], ClassDir(split, "neo"), "neo", neoNames);
    all := AppendClassImages(all, ClassDir(split, "ndbe"), "ndbe", ndbeNames);
  }

  // ---------- which images open ----------

  /** The images that open, in order; the others are skipped. */
  function Opened(images: seq<ImageRecord>, opens: set<string>): (o: seq<ImageRecord>)
    ensures |o| <= |images|
  {
    if |images| == 0 then []
    else
      var last := images[|images| - 1];
      assert images == images[..|images| - 1] + [last];
      Opened(images[..|images| - 1], opens) + (if last.path in opens then [last] else [])
  }

  lemma {:induction false} OpenedAppend(a: seq<ImageRecord>, b: seq<ImageRecord>, opens: set<string>)
    ensures Opened(a + b, opens) == Opened(a, opens) + Opened(b, opens)
  {
    if |b| > 0 {
      assert (a + b)[..|a + b| - 1] == a + b[..|b| - 1];
      OpenedAppend(a, b[..|b| - 1], opens);
    } else {
      assert a + b == a;
    }
  }

  // ---------- the batches, in closed form ----------

  /** The positions [lo, hi) of the opened images that one TIFF file holds. */
  datatype Range = Range(lo: nat, hi: nat)

  /** Where batch `k` starts: `batch_start` after `k` saved batches. */
  function BatchStart(k: nat): nat
  {
    if k == 0 then 0 else BatchStart(k - 1) + BatchSize
  }

  lemma {:induction false} BatchStartIsProduct(k: nat)
    ensures BatchStart(k) == k * BatchSize
  {
    if k > 0 {
      BatchStartIsProduct(k - 1);
    }
  }

  /** The full batches of `n` images end where the remainder begins. */
  lemma QuotientStart(n: nat)
    ensures BatchStart(n / BatchSize) + n % BatchSize == n
  {
    BatchStartIsProduct(n / BatchSize);
  }

  lemma BatchStartMono(j: nat, k: nat)
    requires j <= k
    ensures BatchStart(j) <= BatchStart(k)
  {
    BatchStartIsProduct(j);
    BatchStartIsProduct(k);
  }

  /** A position `r` into batch `k` determines both. */
  lemma QuotientOfStart(k: nat, r: nat)
    requires r < BatchSize
    ensures (BatchStart(k) + r) / BatchSize == k && (BatchStart(k) + r) % BatchSize == r
  {
    BatchStartIsProduct(k);
  }

  /** The `k`-th full batch. */
  function FullBatch(k: nat): Range
  {
    Range(BatchStart(k), BatchStart(k) + BatchSize)
  }

  function Info(rec: ImageRecord, index: nat): PageInfo
  {
    PageInfo(Basename(rec.path), rec.cls, index, ExtractPatientId(rec.path))
  }

  /** The page records of positions [lo, hi) of the opened images. */
  function Infos(o: seq<ImageRecord>, lo: nat, hi: nat): (infos: seq<PageInfo>)
    requires lo <= hi <= |o|
    ensures |infos| == hi - lo
  {
    if hi == lo then [] else Infos(o, lo, hi - 1) + [Info(o[hi - 1], hi - 1 - lo)]
  }

  /** The source paths of the pages at positions [lo, hi). */
  function Pages(o: seq<ImageRecord>, lo: nat, hi: nat): (pages: seq<string>)
    requires lo <= hi <= |o|
    ensures |pages| == hi - lo
  {
    if hi == lo then [] else Pages(o, lo, hi - 1) + [o[hi - 1].path]
  }

  /** Each page record describes the image at its position and is numbered by
      its place in its file (`index_in_batch`). */
  lemma {:induction false} InfoAt(o: seq<ImageRecord>, lo: nat, hi: nat, i: nat)
    requires lo <= hi <= |o| && i < hi - lo
    ensures Infos(o, lo, hi)[i] == Info(o[lo + i], i)
  {
    if i < hi - 1 - lo {
      InfoAt(o, lo, hi - 1, i);
      InfoEarlier(o, lo, hi, i);
    } else {
      InfoLast(o, lo, hi);
    }
  }

  lemma InfoLast(o: seq<ImageRecord>, lo: nat, hi: nat)
    requires lo < hi <= |o|
    ensures Infos(o, lo, hi)[hi - 1 - lo] == Info(o[hi - 1], hi - 1 - lo)
  {
  }

  lemma InfoEarlier(o: seq<ImageRecord>, lo: nat, hi: nat, i: nat)
    requires lo < hi <= |o| && i < hi - 1 - lo
    ensures Infos(o, lo, hi)[i] == Infos(o, lo, hi - 1)[i]
  {
  }

  /** The pages of a file are the opened images at its positions, in order. */
  lemma {:induction false} PagesPointwise(o: seq<ImageRecord>, lo: nat, hi: nat)
    requires lo <= hi <= |o|
    ensures forall i :: 0 <= i < hi - lo ==> Pages(o, lo, hi)[i] == o[lo + i].path
  {
    if hi > lo {
      PagesPointwise(o, lo, hi - 1);
      var prev := Pages(o, lo, hi - 1);
      assert Pages(o, lo, hi) == prev + [o[hi - 1].path];
    }
  }

  /** f"batch_{start}_{end}.tiff" */
  function BatchFilename(start: nat, end: nat): string
  {
    "batch_" + (NatToString(start) + "_" + (NatToString(end) + ".tiff"))
  }

  /** f"{split}_{batch_filename}" for the file holding positions [lo, hi). */
  function BatchKey(split: string, r: Range): string
    requires r.lo < r.hi
  {
    split + "_" + BatchFilename(r.lo, r.hi - 1)
  }

  /** A batch's key is the split's name and an underscore, then a file name that
      starts with "batch_" and ends in ".tiff". */
  lemma BatchKeyShape(split: string, r: Range)
    requires r.lo < r.hi
    ensures var name := BatchFilename(r.lo, r.hi - 1);
      && |name| > 11 && name[..6] == "batch_" && EndsWith(name, ".tiff")
      && BatchKey(split, r) == split + "_" + name
  {
    var s := NatToString(r.lo) + "_" + (NatToString(r.hi - 1) + ".tiff");
    assert s[|s| - 5..] == ".tiff";
    assert ("batch_" + s)[|"batch_" + s| - 5..] == s[|s| - 5..];
  }

  /** Recording one batch's pages under its key. */
  function Record(split: string, o: seq<ImageRecord>, prev: map<string, seq<PageInfo>>, r: Range): map<string, seq<PageInfo>>
    requires r.lo < r.hi <= |o|
  {
    var key := BatchKey(split, r);
    prev[key := (if key in prev then prev[key] else []) + Infos(o, r.lo, r.hi)]
  }

  /** The TIFF file saved for one batch. */
  function SavedFile(split: string, o: seq<ImageRecord>, r: Range): SavedTiff
    requires r.lo < r.hi <= |o|
  {
    SavedTiff(WinJoin(TiffOutputDir, BatchKey(split, r)), Pages(o, r.lo, r.hi), Dpi)
  }

  /** The metadata dictionary once the first `count` full batches were saved. */
  function MetadataAfter(split: string, o: seq<ImageRecord>, count: nat): map<string, seq<PageInfo>>
    requires BatchStart(count) <= |o|
  {
    if count == 0 then map[]
    else Record(split, o, MetadataAfter(split, o, count - 1), FullBatch(count - 1))
  }

  /** The files saved once the first `count` full batches were saved, in order. */
  function SavedAfter(split: string, o: seq<ImageRecord>, count: nat): (saved: seq<SavedTiff>)
    requires BatchStart(count) <= |o|
    ensures |saved| == count
  {
    if count == 0 then []
    else SavedAfter(split, o, count - 1) + [SavedFile(split, o, FullBatch(count - 1))]
  }

  function MetadataPath(split: string): string
  {
    WinJoin(TiffOutputDir, split + "_metadata.json")
  }

  /** The partial batch left when the loop ends. */
  function LastBatch(n: nat): Range
  {
    Range(BatchStart(n / BatchSize), n)
  }

  /** What `create_batches(split)` produces when every batch can be saved. */
  function CreateBatchesSpec(split: string, images: seq<ImageRecord>, opens: set<string>): (out: BatchOutput)
    ensures |out.saved| == BatchCount(|Opened(images, opens)|)
    ensures out.metadataPath == MetadataPath(split)
  {
    var o := Opened(images, opens);
    var full := |o| / BatchSize;
    QuotientStart(|o|);
    var metadata := MetadataAfter(split, o, full);
    var saved := SavedAfter(split, o, full);
    if |o| % BatchSize == 0 then BatchOutput(saved, MetadataPath(split), metadata)
    else
      var last := LastBatch(|o|);
      BatchOutput(saved + [SavedFile(split, o, last)], MetadataPath(split), Record(split, o, metadata, last))
  }

  /** `create_batches(split)` as written: the last-batch branch reads `dpi`, which
      only the full-batch branch assigns, so with some but fewer than 384 opened
      images the final save raises. */
  function CreateBatchesAsWrittenSpec(split: string, images: seq<ImageRecord>, opens: set<string>): (r: Result<BatchOutput, TiffError>)
    ensures r.Ok? && |r.value.saved| > 0 ==> |Opened(images, opens)| >= BatchSize
  {
    var n := |Opened(images, opens)|;
    if 0 < n < BatchSize then Err(DpiUnbound) else Ok(CreateBatchesSpec(split, images, opens))
  }

  // ---------- the batching loop ----------

  /** `for info in batch_info: metadata[batch_key].append({...})`. */
  method AppendEntries(entries: seq<PageInfo>, infos: seq<PageInfo>) returns (r: seq<PageInfo>)
    ensures r == entries + infos
  {
    r := entries;
    var t := 0;
    while t < |infos|
      invariant 0 <= t <= |infos|
      invariant r == entries + infos[..t]
    {
      assert infos[..t + 1] == infos[..t] + [infos[t]];
      r := r + [PageInfo(infos[t].filename, infos[t].cls, infos[t].index, infos[t].patientId)];
      t := t + 1;
    }
    assert infos[..t] == infos;
  }

  /** Saving one batch and recording its pages under its key. */
  method Flush(split: string, metadata: map<string, seq<PageInfo>>, saved: seq<SavedTiff>,
               batch: seq<string>, batchInfo: seq<PageInfo>, batchStart: nat)
    returns (metadata': map<string, seq<PageInfo>>, saved': seq<SavedTiff>)
    requires |batch| > 0
    ensures var key := BatchKey(split, Range(batchStart, batchStart + |batch|));
      && saved' == saved + [SavedTiff(WinJoin(TiffOutputDir, key), batch, Dpi)]
      && metadata' == metadata[key := (if key in metadata then metadata[key] else []) + batchInfo]
  {
    var batchEnd := batchStart + |batch| - 1;
    var batchFilename := BatchFilename(batchStart, batchEnd);
    var batchPath := WinJoin(TiffOutputDir, split + "_" + batchFilename);
    saved' := saved + [SavedTiff(batchPath, batch, Dpi)];
    var batchKey := split + "_" + batchFilename;
    metadata' := metadata;
    if batchKey !in metadata' {
      metadata' := metadata'[batchKey := []];
    }
    var entries := AppendEntries(metadata'[batchKey], batchInfo);
    metadata' := metadata'[batchKey := entries];
  }

  /** The loop's variables: the metadata and the files saved so far, the pending
      batch (its images' paths and page records), where it starts, how many
      batches were saved, and whether `dpi` has been bound. */
  datatype LoopState = LoopState(metadata: map<string, seq<PageInfo>>, saved: seq<SavedTiff>,
                                 batch: seq<string>, batchInfo: seq<PageInfo>,
                                 batchStart: nat, batchNum: nat, dpiBound: bool)

  /** The loop's variables after the first `m` opened images of `o`. */
  ghost predicate Filled(split: string, o: seq<ImageRecord>, m: nat, st: LoopState)
  {
    && m <= |o|
    && st.batchStart == BatchStart(st.batchNum) && m == st.batchStart + |st.batch| && |st.batch| < BatchSize
    && st.batch == Pages(o, st.batchStart, m)
    && st.batchInfo == Infos(o, st.batchStart, m)
    && st.metadata == MetadataAfter(split, o, st.batchNum)
    && st.saved == SavedAfter(split, o, st.batchNum)
    && (st.dpiBound <==> st.batchNum > 0)
  }

  /** Appending the next opened image to the pending batch. */
  lemma AppendStep(o: seq<ImageRecord>, batchStart: nat, m: nat, batch: seq<string>, batchInfo: seq<PageInfo>)
    requires batchStart <= m < |o|
    requires batch == Pages(o, batchStart, m) && batchInfo == Infos(o, batchStart, m)
    ensures batch + [o[m].path] == Pages(o, batchStart, m + 1)
    ensures batchInfo + [Info(o[m], m - batchStart)] == Infos(o, batchStart, m + 1)
  {
  }

  /** The body of the loop for an image that opened: add it to the pending
      batch, and save the batch once it holds 384 pages. */
  method AddImage(split: string, ghost o: seq<ImageRecord>, ghost m: nat, st: LoopState, imgPath: string, cls: string)
    returns (st': LoopState)
    requires Filled(split, o, m, st) && m < |o| && o[m] == ImageRecord(imgPath, cls)
    ensures Filled(split, o, m + 1, st')
  {
    AppendStep(o, st.batchStart, m, st.batch, st.batchInfo);
    var batch := st.batch + [imgPath];
    var batchInfo := st.batchInfo + [PageInfo(Basename(imgPath), cls, |batch| - 1, ExtractPatientId(imgPath))];
    assert batchInfo == st.batchInfo + [Info(o[m], m - st.batchStart)];
    if |batch| == BatchSize {
      st' := SaveFullBatch(split, o, m, st, batch, batchInfo);
    } else {
      st' := st.(batch := batch, batchInfo := batchInfo);
    }
  }

  /** The `if len(batch) == batch_size` branch: save the batch that just filled
      up, bind `dpi`, and start an empty batch one batch further on. */
  method SaveFullBatch(split: string, ghost o: seq<ImageRecord>, ghost m: nat, st: LoopState,
                       batch: seq<string>, batchInfo: seq<PageInfo>)
    returns (st': LoopState)
    requires Filled(split, o, m, st) && m < |o| && |batch| == BatchSize
    requires batch == Pages(o, st.batchStart, m + 1) && batchInfo == Infos(o, st.batchStart, m + 1)
    ensures Filled(split, o, m + 1, st')
  {
    var metadata, saved := Flush(split, st.metadata, st.saved, batch, batchInfo, st.batchStart);
    FullStep(split, o, m, st, batch, batchInfo, metadata, saved);
    st' := LoopState(metadata, saved, [], [], st.batchStart + BatchSize, st.batchNum + 1, true);
  }

  /** Saving the batch that just filled up extends the closed form by one full
      batch and starts an empty one. */
  lemma FullStep(split: string, o: seq<ImageRecord>, m: nat, st: LoopState, batch: seq<string>, batchInfo: seq<PageInfo>,
                 metadata: map<string, seq<PageInfo>>, saved: seq<SavedTiff>)
    requires Filled(split, o, m, st) && m < |o| && |batch| == BatchSize
    requires batch == Pages(o, st.batchStart, m + 1) && batchInfo == Infos(o, st.batchStart, m + 1)
    requires var key := BatchKey(split, Range(st.batchStart, st.batchStart + |batch|));
      && saved == st.saved + [SavedTiff(WinJoin(TiffOutputDir, key), batch, Dpi)]
      && metadata == st.metadata[key := (if key in st.metadata then st.metadata[key] else []) + batchInfo]
    ensures Filled(split, o, m + 1, LoopState(metadata, saved, [], [], st.batchStart + BatchSize, st.batchNum + 1, true))
  {
    var r := FullBatch(st.batchNum);
    assert r.lo == st.batchStart && r.hi == m + 1;
    assert r == Range(st.batchStart, st.batchStart + |batch|);
    var key := BatchKey(split, r);
    assert Pages(o, r.lo, r.hi) == batch && Infos(o, r.lo, r.hi) == batchInfo;
    assert metadata == st.metadata[key := (if key in st.metadata then st.metadata[key] else []) + batchInfo];
    assert metadata == Record(split, o, st.metadata, r);
    assert saved == st.saved + [SavedFile(split, o, r)];
    assert BatchStart(st.batchNum + 1) == m + 1;
    assert metadata == MetadataAfter(split, o, st.batchNum + 1);
    assert saved == SavedAfter(split, o, st.batchNum + 1);
  }

  /** The main loop over `all_images`: every full batch is saved as soon as it
      fills; on exit the partial batch is still pending, and `dpi` has been bound
      exactly when some batch was saved. */
  method FillBatches(split: string, images: seq<ImageRecord>, opens: set<string>) returns (st: LoopState)
    ensures var o := Opened(images, opens);
      && st.batchNum == |o| / BatchSize && |st.batch| == |o| % BatchSize
      && Filled(split, o, |o|, st)
  {
    ghost var o := Opened(images, opens);
    st := LoopState(map[], [], [], [], 0, 0, false);
    FilledAtStart(split, o);
    ghost var m: nat := 0;
    var i := 0;
    while i < |images|
      invariant 0 <= i <= |images|
      invariant m <= |o|
      invariant Opened(images[..i], opens) == o[..m]
      invariant Filled(split, o, m, st)
    {
      OpenedNext(images, opens, i, m);
      m, st := NextImage(split, o, m, st, images[i].path in opens, images[i]);
      i := i + 1;
    }
    assert images[..i] == images;
    assert o[..m] == o;
    FilledAtEnd(split, o, st);
  }

  /** One iteration of the main loop: the `try` either opened the image, which
      then joins the pending batch, or it did not and the image is skipped. */
  method NextImage(split: string, ghost o: seq<ImageRecord>, ghost m: nat, st: LoopState, didOpen: bool, img: ImageRecord)
    returns (ghost m': nat, st': LoopState)
    requires Filled(split, o, m, st) && (didOpen ==> m < |o| && o[m] == img)
    ensures m' == if didOpen then m + 1 else m
    ensures Filled(split, o, m', st')
  {
    if didOpen {
      st' := AddImage(split, o, m, st, img.path, img.cls);
      m' := m + 1;
    } else {
      m', st' := m, st;
    }
  }

  lemma FilledAtStart(split: string, o: seq<ImageRecord>)
    ensures Filled(split, o, 0, LoopState(map[], [], [], [], 0, 0, false))
  {
  }

  /** After the last image, the pending batch holds the remainder of the pages. */
  lemma FilledAtEnd(split: string, o: seq<ImageRecord>, st: LoopState)
    requires Filled(split, o, |o|, st)
    ensures st.batchNum == |o| / BatchSize && |st.batch| == |o| % BatchSize
  {
    QuotientOfStart(st.batchNum, |st.batch|);
  }

  /** One step of the loop: the image at `i` is the next opened image if it opens. */
  lemma OpenedNext(images: seq<ImageRecord>, opens: set<string>, i: nat, m: nat)
    requires i < |images| && m <= |Opened(images, opens)|
    requires Opened(images[..i], opens) == Opened(images, opens)[..m]
    ensures images[i].path in opens ==>
      && m < |Opened(images, opens)| && Opened(images, opens)[m] == images[i]
      && Opened(images[..i + 1], opens) == Opened(images, opens)[..m + 1]
    ensures images[i].path !in opens ==> Opened(images[..i + 1], opens) == Opened(images, opens)[..m]
  {
    OpenedStep(images, opens, i);
    var o := Opened(images, opens);
    var next := Opened(images[..i + 1], opens);
    if images[i].path in opens {
      assert next == o[..m] + [images[i]];
      assert m < |next| <= |o| && o[..|next|] == next;
      assert o[m] == next[m] == images[i];
    }
  }

  lemma OpenedStep(images: seq<ImageRecord>, opens: set<string>, i: nat)
    requires i < |images|
    ensures Opened(images[..i + 1], opens) ==
      Opened(images[..i], opens) + (if images[i].path in opens then [images[i]] else [])
    ensures |Opened(images[..i + 1], opens)| <= |Opened(images, opens)|
    ensures Opened(images, opens)[..|Opened(images[..i + 1], opens)|] == Opened(images[..i + 1], opens)
  {
    assert images[..i + 1][..i] == images[..i];
    assert images == images[..i + 1] + images[i + 1..];
    OpenedAppend(images[..i + 1], images[i + 1..], opens);
  }

  /** `create_batches(split)` with `dpi` bound before the loop: the pending
      partial batch is saved like the full ones. */
  method CreateBatches(split: string, neoNames: seq<string>, ndbeNames: seq<string>, opens: set<string>)
    returns (out: BatchOutput)
    ensures out == CreateBatchesSpec(split, AllImages(split, neoNames, ndbeNames), opens)
  {
    var all := CollectImages(split, neoNames, ndbeNames);
    var st := FillBatches(split, all, opens);
    out := SaveRemainder(split, all, opens, st);
  }

  /** After the loop: save the pending partial batch, if any, and name the
      metadata file. */
  method SaveRemainder(split: string, ghost images: seq<ImageRecord>, ghost opens: set<string>, st: LoopState)
    returns (out: BatchOutput)
    requires var o := Opened(images, opens);
      && st.batchNum == |o| / BatchSize && |st.batch| == |o| % BatchSize
      && Filled(split, o, |o|, st)
    ensures out == CreateBatchesSpec(split, images, opens)
  {
    var metadata, saved := st.metadata, st.saved;
    if |st.batch| > 0 {
      metadata, saved := Flush(split, metadata, saved, st.batch, st.batchInfo, st.batchStart);
    }
    out := BatchOutput(saved, WinJoin(TiffOutputDir, split + "_metadata.json"), metadata);
    FinalOutput(split, images, opens, st, metadata, saved);
  }

  /** Saving the pending batch, if there is one, completes the closed form. */
  lemma FinalOutput(split: string, images: seq<ImageRecord>, opens: set<string>, st: LoopState,
                    metadata: map<string, seq<PageInfo>>, saved: seq<SavedTiff>)
    requires var o := Opened(images, opens);
      && st.batchNum == |o| / BatchSize && |st.batch| == |o| % BatchSize
      && Filled(split, o, |o|, st)
    requires |st.batch| == 0 ==> metadata == st.metadata && saved == st.saved
    requires |st.batch| > 0 ==>
      var key := BatchKey(split, Range(st.batchStart, st.batchStart + |st.batch|));
      && saved == st.saved + [SavedTiff(WinJoin(TiffOutputDir, key), st.batch, Dpi)]
      && metadata == st.metadata[key := (if key in st.metadata then st.metadata[key] else []) + st.batchInfo]
    ensures BatchOutput(saved, MetadataPath(split), metadata) == CreateBatchesSpec(split, images, opens)
  {
    var o := Opened(images, opens);
    QuotientStart(|o|);
    if |st.batch| > 0 {
      var r := LastBatch(|o|);
      assert r == Range(st.batchStart, st.batchStart + |st.batch|);
      var key := BatchKey(split, r);
      assert Pages(o, r.lo, r.hi) == st.batch && Infos(o, r.lo, r.hi) == st.batchInfo;
      assert metadata == st.metadata[key := (if key in st.metadata then st.metadata[key] else []) + st.batchInfo];
      assert metadata == Record(split, o, st.metadata, r);
      assert saved == st.saved + [SavedFile(split, o, r)];
    }
  }

  /** The loop leaves `dpi` unbound with a batch pending exactly when fewer than
      384, and more than none, images opened. */
  lemma DpiUnboundWhen(o: seq<ImageRecord>, st: LoopState)
    requires st.batchNum == |o| / BatchSize && |st.batch| == |o| % BatchSize
    requires st.dpiBound <==> st.batchNum > 0
    ensures (|st.batch| > 0 && !st.dpiBound) <==> 0 < |o| < BatchSize
  {
  }

  /** `create_batches(split)` as written: the last partial batch is saved with
      `dpi`, which only the full-batch branch binds. */
  method CreateBatchesAsWritten(split: string, neoNames: seq<string>, ndbeNames: seq<string>, opens: set<string>)
    returns (r: Result<BatchOutput, TiffError>)
    ensures r == CreateBatchesAsWrittenSpec(split, AllImages(split, neoNames, ndbeNames), opens)
  {
    var all := CollectImages(split, neoNames, ndbeNames);
    var st := FillBatches(split, all, opens);
    DpiUnboundWhen(Opened(all, opens), st);
    if |st.batch| > 0 && !st.dpiBound {
      return Err(DpiUnbound);
    }
    var out := SaveRemainder(split, all, opens, st);
    r := Ok(out);
  }

  // ---------- what the saved files and the metadata hold ----------

  /** Exactly the images that open are kept, and only those. */
  lemma {:induction false} OpenedMembers(images: seq<ImageRecord>, opens: set<string>)
    ensures forall x :: x in Opened(images, opens) <==> x in images && x.path in opens
  {
    if |images| > 0 {
      var pre := images[..|images| - 1];
      OpenedMembers(pre, opens);
      assert images == pre + [images[|images| - 1]];
    }
  }

  /** The number of files saved for `n` opened images: 384 pages each, the
      last one possibly short. */
  function BatchCount(n: nat): nat
  {
    n / BatchSize + (if n % BatchSize == 0 then 0 else 1)
  }

  /** The positions held by the `j`-th saved file. */
  function BatchOf(n: nat, j: nat): (r: Range)
    requires j < BatchCount(n)
    ensures r.lo == j * BatchSize && r.lo < r.hi <= n && r.hi - r.lo <= BatchSize
  {
    BatchStartIsProduct(j);
    BatchStartIsProduct(n / BatchSize);
    if j < n / BatchSize then FullBatch(j) else LastBatch(n)
  }

  /** The files tile the opened images: the first starts at 0, each starts where
      the one before ended, all but the last hold exactly 384 pages, and the
      last ends at the last opened image. */
  lemma BatchTiling(n: nat, j: nat)
    requires j < BatchCount(n)
    ensures j == 0 ==> BatchOf(n, j).lo == 0
    ensures j + 1 < BatchCount(n) ==>
      BatchOf(n, j).hi - BatchOf(n, j).lo == BatchSize && BatchOf(n, j).hi == BatchOf(n, j + 1).lo
    ensures j + 1 == BatchCount(n) ==> BatchOf(n, j).hi == n
  {
    BatchStartIsProduct(j);
    BatchStartIsProduct(n / BatchSize);
  }

  /** The `j`-th of the full batches saved inside the loop. */
  lemma {:induction false} SavedAt(split: string, o: seq<ImageRecord>, count: nat, j: nat)
    requires BatchStart(count) <= |o| && j < count && FullBatch(j).hi <= |o|
    ensures SavedAfter(split, o, count)[j] == SavedFile(split, o, FullBatch(j))
  {
    if j < count - 1 {
      SavedAt(split, o, count - 1, j);
    }
  }

  /** The closed form, one branch at a time. */
  lemma SpecParts(split: string, images: seq<ImageRecord>, opens: set<string>)
    ensures var o := Opened(images, opens);
      var n := |o|;
      var full := n / BatchSize;
      var out := CreateBatchesSpec(split, images, opens);
      && BatchStart(full) + n % BatchSize == n
      && (n % BatchSize == 0 ==> out.saved == SavedAfter(split, o, full) && out.metadata == MetadataAfter(split, o, full))
      && (n % BatchSize != 0 ==>
        && out.saved == SavedAfter(split, o, full) + [SavedFile(split, o, LastBatch(n))]
        && out.metadata == Record(split, o, MetadataAfter(split, o, full), LastBatch(n)))
  {
    QuotientStart(|Opened(images, opens)|);
  }

  /** One TIFF file per batch, in order, each holding its batch's pages. */
  lemma SavedFiles(split: string, images: seq<ImageRecord>, opens: set<string>)
    ensures var o := Opened(images, opens);
      var saved := CreateBatchesSpec(split, images, opens).saved;
      && |saved| == BatchCount(|o|)
      && forall j :: 0 <= j < |saved| ==> saved[j] == SavedFile(split, o, BatchOf(|o|, j))
  {
    SpecParts(split, images, opens);
    var o := Opened(images, opens);
    var n := |o|;
    var saved := CreateBatchesSpec(split, images, opens).saved;
    forall j | 0 <= j < |saved| ensures saved[j] == SavedFile(split, o, BatchOf(n, j)) {
      if j < n / BatchSize {
        assert BatchOf(n, j) == FullBatch(j);
        SavedAt(split, o, n / BatchSize, j);
      }
    }
  }

  /** The pages of positions [lo, hi) are those of [lo, mid) followed by those of [mid, hi). */
  lemma {:induction false} PagesSplit(o: seq<ImageRecord>, lo: nat, mid: nat, hi: nat)
    requires lo <= mid <= hi <= |o|
    ensures Pages(o, lo, mid) + Pages(o, mid, hi) == Pages(o, lo, hi)
  {
    if hi > mid {
      PagesSplit(o, lo, mid, hi - 1);
    }
  }

  /** The pages of all files, one file after the other. */
  function Flatten(files: seq<SavedTiff>): seq<string>
  {
    if |files| == 0 then [] else Flatten(files[..|files| - 1]) + files[|files| - 1].pages
  }

  lemma {:induction false} FlattenSavedAfter(split: string, o: seq<ImageRecord>, count: nat)
    requires BatchStart(count) <= |o|
    ensures Flatten(SavedAfter(split, o, count)) == Pages(o, 0, BatchStart(count))
  {
    if count > 0 {
      var saved := SavedAfter(split, o, count);
      FlattenSavedAfter(split, o, count - 1);
      assert saved[..count - 1] == SavedAfter(split, o, count - 1);
      PagesSplit(o, 0, BatchStart(count - 1), BatchStart(count));
    }
  }

  /** Every image that opened is a page of exactly one file, and the files,
      read in order, hold the opened images in order. */
  lemma PagesCoverOpened(split: string, images: seq<ImageRecord>, opens: set<string>)
    ensures var o := Opened(images, opens);
      var pages := Flatten(CreateBatchesSpec(split, images, opens).saved);
      && |pages| == |o|
      && forall i :: 0 <= i < |o| ==> pages[i] == o[i].path
  {
    SpecParts(split, images, opens);
    var o := Opened(images, opens);
    var n := |o|;
    var full := n / BatchSize;
    var saved := SavedAfter(split, o, full);
    FlattenSavedAfter(split, o, full);
    var pages := Flatten(CreateBatchesSpec(split, images, opens).saved);
    if n % BatchSize != 0 {
      var all := saved + [SavedFile(split, o, LastBatch(n))];
      assert all[..|all| - 1] == saved;
      PagesSplit(o, 0, BatchStart(full), n);
      assert pages == Pages(o, 0, n);
    } else {
      assert pages == Pages(o, 0, n);
    }
    PagesPointwise(o, 0, n);
  }

  lemma DropCommonPrefix<T>(h: seq<T>, t1: seq<T>, t2: seq<T>)
    requires h + t1 == h + t2
    ensures t1 == t2
  {
    assert t1 == (h + t1)[|h|..];
    assert t2 == (h + t2)[|h|..];
  }

  lemma DropCommonSuffix<T>(t1: seq<T>, t2: seq<T>, x: seq<T>)
    requires t1 + x == t2 + x
    ensures t1 == t2
  {
    assert t1 == (t1 + x)[..|t1|];
    assert t2 == (t2 + x)[..|t2|];
  }

  lemma NoUnderscoreInNumber(n: nat)
    ensures '_' !in NatToString(n)
  {
    NatToStringDigits(n);
    var a := NatToString(n);
    assert forall i :: 0 <= i < |a| ==> a[i] != '_';
  }

  /** Distinct batches give distinct file names and keys. */
  lemma BatchKeyInjective(split: string, r1: Range, r2: Range)
    requires r1.lo < r1.hi && r2.lo < r2.hi
    requires BatchKey(split, r1) == BatchKey(split, r2)
    ensures r1 == r2
  {
    var a1, m1 := NatToString(r1.lo), NatToString(r1.hi - 1);
    var a2, m2 := NatToString(r2.lo), NatToString(r2.hi - 1);
    DropCommonPrefix(split + "_", BatchFilename(r1.lo, r1.hi - 1), BatchFilename(r2.lo, r2.hi - 1));
    DropCommonPrefix("batch_", a1 + "_" + (m1 + ".tiff"), a2 + "_" + (m2 + ".tiff"));
    NoUnderscoreInNumber(r1.lo);
    NoUnderscoreInNumber(r2.lo);
    HeadsBeforeSeparator(a1, m1 + ".tiff", a2, m2 + ".tiff", '_');
    DropCommonSuffix(m1, m2, ".tiff");
    NatToStringInjective(r1.lo, r2.lo);
    NatToStringInjective(r1.hi - 1, r2.hi - 1);
  }

  /** A batch starting at or after the end of the first `count` full batches
      has no entry yet. */
  lemma {:induction false} KeyAbsent(split: string, o: seq<ImageRecord>, count: nat, r: Range)
    requires BatchStart(count) <= |o| && r.lo < r.hi && BatchStart(count) <= r.lo
    ensures BatchKey(split, r) !in MetadataAfter(split, o, count)
  {
    if count > 0 {
      KeyAbsent(split, o, count - 1, r);
      if BatchKey(split, r) == BatchKey(split, FullBatch(count - 1)) {
        BatchKeyInjective(split, r, FullBatch(count - 1));
      }
    }
  }

  /** The `j`-th full batch's entry lists its page records. */
  lemma {:induction false} EntryAt(split: string, o: seq<ImageRecord>, count: nat, j: nat)
    requires BatchStart(count) <= |o| && j < count
    ensures (BatchStartMono(j + 1, count);
      BatchKey(split, FullBatch(j)) in MetadataAfter(split, o, count) &&
      MetadataAfter(split, o, count)[BatchKey(split, FullBatch(j))] == Infos(o, FullBatch(j).lo, FullBatch(j).hi))
  {
    BatchStartMono(j + 1, count);
    var k := count - 1;
    var r := FullBatch(k);
    var prev := MetadataAfter(split, o, k);
    if j == k {
      KeyAbsent(split, o, k, r);
    } else {
      EntryAt(split, o, k, j);
      if BatchKey(split, FullBatch(j)) == BatchKey(split, r) {
        BatchKeyInjective(split, FullBatch(j), r);
        BatchStartIsProduct(j);
        BatchStartIsProduct(k);
      }
    }
  }

  /** `key` names one of the first `count` full batches. */
  ghost predicate FullKey(split: string, count: nat, key: string)
  {
    exists j :: 0 <= j < count && key == BatchKey(split, FullBatch(j))
  }

  /** Every key of the metadata names one of the full batches saved so far. */
  lemma {:induction false} KeysOnly(split: string, o: seq<ImageRecord>, count: nat, key: string)
    requires BatchStart(count) <= |o| && key in MetadataAfter(split, o, count)
    ensures FullKey(split, count, key)
  {
    var k := count - 1;
    if key != BatchKey(split, FullBatch(k)) {
      KeysOnly(split, o, k, key);
      var j :| 0 <= j < k && key == BatchKey(split, FullBatch(j));
    }
  }

  /** After `count` full batches the metadata holds one entry per batch, under
      the batch's key, listing that batch's page records, and nothing else. */
  lemma MetadataAfterEntries(split: string, o: seq<ImageRecord>, count: nat)
    requires BatchStart(count) <= |o|
    ensures var md := MetadataAfter(split, o, count);
      && (forall key :: key in md ==> FullKey(split, count, key))
      && forall j :: 0 <= j < count ==> (BatchStartMono(j + 1, count);
        && BatchKey(split, FullBatch(j)) in md
        && md[BatchKey(split, FullBatch(j))] == Infos(o, FullBatch(j).lo, FullBatch(j).hi))
  {
    forall key | key in MetadataAfter(split, o, count) ensures FullKey(split, count, key) {
      KeysOnly(split, o, count, key);
    }
    forall j | 0 <= j < count
      ensures (BatchStartMono(j + 1, count);
        BatchKey(split, FullBatch(j)) in MetadataAfter(split, o, count) &&
        MetadataAfter(split, o, count)[BatchKey(split, FullBatch(j))] == Infos(o, FullBatch(j).lo, FullBatch(j).hi))
    {
      EntryAt(split, o, count, j);
    }
  }

  /** `key` names one of the files saved for `n` opened images. */
  ghost predicate FileKey(split: string, n: nat, key: string)
  {
    exists j :: 0 <= j < BatchCount(n) && key == BatchKey(split, BatchOf(n, j))
  }

  /** The metadata has one key per saved file, `"{split}_batch_{start}_{end}.tiff"`,
      and its list holds the page records of that file's images, in order. */
  lemma MetadataEntries(split: string, images: seq<ImageRecord>, opens: set<string>)
    ensures var o := Opened(images, opens);
      var md := CreateBatchesSpec(split, images, opens).metadata;
      && (forall key :: key in md ==> FileKey(split, |o|, key))
      && forall j :: 0 <= j < BatchCount(|o|) ==>
        && BatchKey(split, BatchOf(|o|, j)) in md
        && md[BatchKey(split, BatchOf(|o|, j))] == Infos(o, BatchOf(|o|, j).lo, BatchOf(|o|, j).hi)
  {
    SpecParts(split, images, opens);
    var o := Opened(images, opens);
    var n := |o|;
    var full := n / BatchSize;
    var prev := MetadataAfter(split, o, full);
    var md := CreateBatchesSpec(split, images, opens).metadata;
    if n % BatchSize != 0 {
      KeyAbsent(split, o, full, LastBatch(n));
    }
    forall key | key in md ensures FileKey(split, n, key) {
      if n % BatchSize == 0 || key != BatchKey(split, LastBatch(n)) {
        KeysOnly(split, o, full, key);
        var j :| 0 <= j < full && key == BatchKey(split, FullBatch(j));
        assert BatchOf(n, j) == FullBatch(j);
      } else {
        assert BatchOf(n, full) == LastBatch(n);
      }
    }
    forall j | 0 <= j < BatchCount(n)
      ensures BatchKey(split, BatchOf(n, j)) in md
      ensures md[BatchKey(split, BatchOf(n, j))] == Infos(o, BatchOf(n, j).lo, BatchOf(n, j).hi)
    {
      if j < full {
        EntryAt(split, o, full, j);
        assert BatchOf(n, j) == FullBatch(j);
      }
    }
  }

  // ---------- the unbound `dpi` ----------

  /** One opened image is enough: the script as written fails on the final save,
      while the corrected loop saves that image in one file. */
  lemma DpiFaultWitness()
    ensures var images := AllImages("val", ["a_1.jpg"], []);
      var opens := {WinJoin(ClassDir("val", "neo"), "a_1.jpg")};
      && CreateBatchesAsWrittenSpec("val", images, opens) == Err(DpiUnbound)
      && |CreateBatchesSpec("val", images, opens).saved| == 1
  {
    var path := WinJoin(ClassDir("val", "neo"), "a_1.jpg");
    WitnessImages();
    var images := AllImages("val", ["a_1.jpg"], []);
    assert Opened(images, {path}) == images by {
      assert images[..0] == [];
    }
    SavedFiles("val", images, {path});
  }

  lemma WitnessImages()
    ensures AllImages("val", ["a_1.jpg"], []) == [ImageRecord(WinJoin(ClassDir("val", "neo"), "a_1.jpg"), "neo")]
  {
    assert HasImageExtension("a_1.jpg") by {
      assert Lower("a_1.jpg") == "a_1.jpg";
      assert "a_1.jpg"[|"a_1.jpg"| - |".jpg"|..] == ".jpg";
    }
    assert ["a_1.jpg"][..0] == [];
  }
}
