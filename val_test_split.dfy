/** `create_val_test_split.py`: group each class folder's image files by patient,
    shuffle each class's patients, take whole patients into the validation split
    until the class's image target is reached, and put the remaining patients,
    in shuffled order, into the test split. Listing a folder and copying files
    are I/O; the listing is an input, the copies are recorded as a plan, and
    `random.shuffle` is an arbitrary permutation passed in by the caller. */
module ValTestSplit {
  import opened Wrappers
  import opened Paths
  import opened FileNames
  import opened Strings
  import opened Grouping

  const DataRoot: string := "E:\\RARE2025_FINAL_DATA\\test-all"
  const SplitRoot: string := "E:\\RARE2025_FINAL_DATA\\test-val-split"
  const NeoTarget: nat := 100
  const NdbeTarget: nat := 1000

  /** `target_counts[cls]`, for the two class folders. */
  function Target(cls: string): (t: nat)
    ensures cls == "neo" ==> t == 100
    ensures cls == "ndbe" ==> t == 1000
  {
    if cls == "neo" then NeoTarget else NdbeTarget
  }

  /** An image file kept for the split: its patient id and its full path. */
  datatype Kept = Kept(pid: string, path: string)

  /** A class's patients, dictionary and split as the script leaves them. */
  datatype ClassSplit = ClassSplit(
    order: seq<string>,                 // `list(patient_images[cls].keys())`
    groups: map<string, seq<string>>,   // `patient_images[cls]`
    patients: seq<string>,              // the shuffled patients
    val: seq<string>,
    test: seq<string>,
    valCount: nat,
    testCount: nat)

  datatype Copy = Copy(source: string, destDir: string)

  // ---------- grouping images by patient ----------

  /** What the listing of one name contributes: nothing unless it is an image
      whose name has an underscore. */
  function KeptOne(dir: string, name: string): seq<Kept>
  {
    if HasImageExtension(name) then
      match PatientPrefix(name)
      case Some(pid) => [Kept(pid, WinJoin(dir, name))]
      case None => []
    else []
  }

  /** The images of a class folder that the script keeps, in listing order. */
  function KeptImages(dir: string, names: seq<string>): (ks: seq<Kept>)
    ensures |ks| <= |names|
  {
    if |names| == 0 then []
    else KeptImages(dir, names[..|names| - 1]) + KeptOne(dir, names[|names| - 1])
  }

  function Pids(ks: seq<Kept>): (r: seq<string>)
    ensures |r| == |ks|
  {
    if |ks| == 0 then [] else Pids(ks[..|ks| - 1]) + [ks[|ks| - 1].pid]
  }

  function Files(ks: seq<Kept>): (r: seq<string>)
    ensures |r| == |ks|
  {
    if |ks| == 0 then [] else Files(ks[..|ks| - 1]) + [ks[|ks| - 1].path]
  }

  lemma PidsFilesAppend(ks: seq<Kept>, k: Kept)
    ensures Pids(ks + [k]) == Pids(ks) + [k.pid]
    ensures Files(ks + [k]) == Files(ks) + [k.path]
  {
    assert (ks + [k])[..|ks|] == ks;
  }

  /** `'_'.join(parts[:2])` when `filename.split('_')` has two parts or more. */
  method ParsePatient(name: string) returns (pid: Option<string>)
    ensures pid == PatientPrefix(name)
  {
    var parts := Split(name, '_');
    if |parts| >= 2 {
      pid := Some(Join(parts[..2], '_'));
    } else {
      pid := None;
    }
    SplitJoinPrefix(name);
  }

  /** The listing loop for one folder: every kept image is appended to its
      patient's list, and patients enter the dictionary in the order they are
      first seen. */
  method GroupClass(dir: string, names: seq<string>) returns (order: seq<string>, groups: map<string, seq<string>>)
    ensures var ks := KeptImages(dir, names);
      order == FirstSeen(Pids(ks)) &&
      (forall p :: p in groups <==> p in Pids(ks)) &&
      (forall p :: p in groups ==> groups[p] == Collect(Pids(ks), Files(ks), p))
  {
    order, groups := [], map[];
    ghost var ks: seq<Kept> := [];
    var j := 0;
    while j < |names|
      invariant j <= |names| && ks == KeptImages(dir, names[..j])
      invariant order == FirstSeen(Pids(ks))
      invariant forall p :: p in groups <==> p in Pids(ks)
      invariant forall p :: p in groups ==> groups[p] == Collect(Pids(ks), Files(ks), p)
    {
      var name := names[j];
      if HasImageExtension(name) {
        var pid := ParsePatient(name);
        if pid.Some? {
          var path := WinJoin(dir, name);
          KeptStepKept(dir, names, j, pid.value, path);
          AddToGroup(Pids(ks), Files(ks), order, groups, pid.value, path);
          // the `defaultdict` starts a new patient with an empty list
          var images := if pid.value in groups then groups[pid.value] else [];
          if pid.value !in groups {
            order := order + [pid.value];
          }
          groups := groups[pid.value := images + [path]];
          PidsFilesAppend(ks, Kept(pid.value, path));
          ks := ks + [Kept(pid.value, path)];
        } else {
          KeptStepSkipped(dir, names, j);
        }
      } else {
        KeptStepSkipped(dir, names, j);
      }
      j := j + 1;
    }
    assert names[..j] == names;
  }

  /** `patient_images[folder][patient_id].append(path)` keeps the dictionary
      equal to the grouping of the ids and paths seen so far. */
  lemma AddToGroup(keys: seq<string>, vals: seq<string>, order: seq<string>, groups: map<string, seq<string>>,
                   k: string, v: string)
    requires |keys| == |vals| && order == FirstSeen(keys)
    requires forall p :: p in groups <==> p in keys
    requires forall p :: p in groups ==> groups[p] == Collect(keys, vals, p)
    ensures var order' := if k in groups then order else order + [k];
      var groups' := groups[k := (if k in groups then groups[k] else []) + [v]];
      order' == FirstSeen(keys + [k]) &&
      (forall p :: p in groups' <==> p in keys + [k]) &&
      (forall p :: p in groups' ==> groups'[p] == Collect(keys + [k], vals + [v], p))
  {
    AppendKey(keys, vals, k, v);
    if k !in groups {
      CollectAbsent(keys, vals, k);
    }
    var groups' := groups[k := (if k in groups then groups[k] else []) + [v]];
    forall p | p in groups' ensures groups'[p] == Collect(keys + [k], vals + [v], p) {
      if p != k {
        assert groups'[p] == groups[p];
      }
    }
  }

  lemma KeptStepKept(dir: string, names: seq<string>, j: nat, pid: string, path: string)
    requires j < |names| && HasImageExtension(names[j]) && PatientPrefix(names[j]) == Some(pid)
    requires path == WinJoin(dir, names[j])
    ensures KeptImages(dir, names[..j + 1]) == KeptImages(dir, names[..j]) + [Kept(pid, path)]
  {
    KeptStep(dir, names, j);
  }

  lemma KeptStepSkipped(dir: string, names: seq<string>, j: nat)
    requires j < |names| && !(HasImageExtension(names[j]) && PatientPrefix(names[j]).Some?)
    ensures KeptImages(dir, names[..j + 1]) == KeptImages(dir, names[..j])
  {
    KeptStep(dir, names, j);
  }

  /** Listing one more name extends the kept images by that name's image, if
      it is kept. */
  lemma KeptStep(dir: string, names: seq<string>, j: nat)
    requires j < |names|
    ensures KeptImages(dir, names[..j + 1]) == KeptImages(dir, names[..j]) +
      (if HasImageExtension(names[j]) && PatientPrefix(names[j]).Some?
       then [Kept(PatientPrefix(names[j]).value, WinJoin(dir, names[j]))] else [])
  {
    assert names[..j + 1][..j] == names[..j];
  }

  /** One more key/value pair: the key order grows by the key when it is new,
      and only that key's list grows, by the value. */
  lemma AppendKey(keys: seq<string>, vals: seq<string>, k: string, v: string)
    requires |keys| == |vals|
    ensures FirstSeen(keys + [k]) == (if k in keys then FirstSeen(keys) else FirstSeen(keys) + [k])
    ensures forall p :: (Collect(keys + [k], vals + [v], p) ==
      Collect(keys, vals, p) + (if k == p then [v] else []))
  {
    assert (keys + [k])[..|keys|] == keys && (vals + [v])[..|vals|] == vals;
    FirstSeenMembers(keys);
  }

  /** `k` is the image of a listed name: an image file with patient id `k.pid`. */
  ghost predicate KeptFrom(dir: string, names: seq<string>, k: Kept)
  {
    exists j :: 0 <= j < |names| && HasImageExtension(names[j]) && PatientPrefix(names[j]) == Some(k.pid) && k.path == WinJoin(dir, names[j])
  }

  /** A name contributes its own image, with its patient id, when it is an image
      with an underscore, and nothing otherwise. */
  lemma KeptOneShape(dir: string, name: string, k: Kept)
    ensures k in KeptOne(dir, name) <==>
      HasImageExtension(name) && PatientPrefix(name) == Some(k.pid) && k.path == WinJoin(dir, name)
  {
  }

  /** The concatenation of what `f` gives for each entry of `xs`, in order. */
  function ConcatMap<T, U>(f: T -> seq<U>, xs: seq<T>): seq<U>
  {
    if |xs| == 0 then [] else ConcatMap(f, xs[..|xs| - 1]) + f(xs[|xs| - 1])
  }

  /** Each value of the concatenation is contributed by some entry. */
  lemma {:induction false} ConcatMapOrigin<T, U>(f: T -> seq<U>, xs: seq<T>, u: U)
    requires u in ConcatMap(f, xs)
    ensures exists j :: 0 <= j < |xs| && u in f(xs[j])
  {
    var n := |xs| - 1;
    if u in ConcatMap(f, xs[..n]) {
      ConcatMapOrigin(f, xs[..n], u);
      var j :| 0 <= j < n && u in f(xs[..n][j]);
      assert xs[..n][j] == xs[j];
    }
  }

  /** What each entry contributes is in the concatenation. */
  lemma {:induction false} ConcatMapAt<T, U>(f: T -> seq<U>, xs: seq<T>, j: nat, u: U)
    requires j < |xs| && u in f(xs[j])
    ensures u in ConcatMap(f, xs)
  {
    var n := |xs| - 1;
    if j < n {
      assert xs[..n][j] == xs[j];
      ConcatMapAt(f, xs[..n], j, u);
    }
  }

  function KeptOf(dir: string): string -> seq<Kept>
  {
    name => KeptOne(dir, name)
  }

  /** The kept images are what the names contribute one by one. */
  lemma {:induction false} KeptImagesConcat(dir: string, names: seq<string>)
    ensures KeptImages(dir, names) == ConcatMap(KeptOf(dir), names)
  {
    if |names| > 0 {
      KeptImagesConcat(dir, names[..|names| - 1]);
    }
  }

  /** Every kept image comes from an image name with an underscore in the
      listing, and every such name is kept, with its patient id. */
  lemma KeptFromListing(dir: string, names: seq<string>)
    ensures forall k :: k in KeptImages(dir, names) ==> KeptFrom(dir, names, k)
    ensures forall j :: 0 <= j < |names| && HasImageExtension(names[j]) && '_' in names[j] ==>
      Kept(PatientPrefix(names[j]).value, WinJoin(dir, names[j])) in KeptImages(dir, names)
  {
    KeptImagesConcat(dir, names);
    forall k | k in KeptImages(dir, names) ensures KeptFrom(dir, names, k) {
      ConcatMapOrigin(KeptOf(dir), names, k);
      var j :| 0 <= j < |names| && k in KeptOf(dir)(names[j]);
      KeptOneShape(dir, names[j], k);
    }
    forall j | 0 <= j < |names| && HasImageExtension(names[j]) && '_' in names[j]
      ensures Kept(PatientPrefix(names[j]).value, WinJoin(dir, names[j])) in KeptImages(dir, names)
    {
      PatientPrefixShape(names[j]);
      var k := Kept(PatientPrefix(names[j]).value, WinJoin(dir, names[j]));
      KeptOneShape(dir, names[j], k);
      ConcatMapAt(KeptOf(dir), names, j, k);
    }
  }

  // ---------- choosing the validation patients ----------

  /** `len(patient_images[cls][pid])`: reading a missing key of a `defaultdict`
      gives an empty list. */
  function Size(groups: map<string, seq<string>>, pid: string): nat
  {
    if pid in groups then |groups[pid]| else 0
  }

  /** `sum(len(patient_images[cls][pid]) for pid in pids)`. */
  function Total(groups: map<string, seq<string>>, pids: seq<string>): nat
  {
    if |pids| == 0 then 0 else Total(groups, pids[..|pids| - 1]) + Size(groups, pids[|pids| - 1])
  }

  /** Every patient with an image adds at least one to the count, so the greedy
      selection grows its count with every patient it takes. */
  lemma {:induction false} TotalAtLeastPatients(groups: map<string, seq<string>>, pids: seq<string>)
    requires forall i :: 0 <= i < |pids| ==> Size(groups, pids[i]) > 0
    ensures Total(groups, pids) >= |pids|
  {
    if |pids| > 0 {
      var n := |pids| - 1;
      assert forall i :: 0 <= i < n ==> pids[..n][i] == pids[i];
      TotalAtLeastPatients(groups, pids[..n]);
    }
  }

  /** The greedy stop rule: the validation split is the first `k` patients,
      with `k` the first length at which the image count reaches the target,
      or all patients when it never does. At least one patient is taken when
      there is one, because the check follows the append. */
  ghost predicate StopsAt(groups: map<string, seq<string>>, patients: seq<string>, target: nat, k: nat)
  {
    k <= |patients| && (|patients| > 0 ==> k >= 1) &&
    (forall k' :: 1 <= k' < k ==> Total(groups, patients[..k']) < target) &&
    (k < |patients| ==> Total(groups, patients[..k]) >= target)
  }

  /** The selection loop for one class, `break` included. */
  method SelectValidation(groups: map<string, seq<string>>, patients: seq<string>, target: nat)
    returns (val: seq<string>, count: nat)
    ensures |val| <= |patients| && val == patients[..|val|]
    ensures count == Total(groups, val)
    ensures StopsAt(groups, patients, target, |val|)
    ensures Total(groups, patients) >= target ==> count >= target
  {
    val, count := [], 0;
    var i := 0;
    while i < |patients|
      invariant i <= |patients| && val == patients[..i]
      invariant count == Total(groups, val)
      invariant forall k' :: 1 <= k' <= i ==> Total(groups, patients[..k']) < target
    {
      var pid := patients[i];
      assert patients[..i + 1] == val + [pid];
      assert (val + [pid])[..i] == val;
      val := val + [pid];
      count := count + Size(groups, pid);
      i := i + 1;
      if count >= target {
        break;
      }
    }
    assert patients[..|patients|] == patients;
  }

  /** The stop rule picks one length only. */
  lemma StopsAtUnique(groups: map<string, seq<string>>, patients: seq<string>, target: nat, k1: nat, k2: nat)
    requires StopsAt(groups, patients, target, k1) && StopsAt(groups, patients, target, k2)
    ensures k1 == k2
  {
  }

  /** The remaining patients: `[pid for pid in patients if pid not in val]`. */
  function TestPatients(patients: seq<string>, val: seq<string>): (test: seq<string>)
    ensures |test| <= |patients|
  {
    if |patients| == 0 then []
    else
      var p := patients[|patients| - 1];
      TestPatients(patients[..|patients| - 1], val) + (if p in val then [] else [p])
  }

  /** The test patients are the shuffled patients outside validation. */
  lemma {:induction false} TestMembers(patients: seq<string>, val: seq<string>)
    ensures forall p :: p in TestPatients(patients, val) <==> p in patients && p !in val
  {
    if |patients| > 0 {
      var n := |patients| - 1;
      TestMembers(patients[..n], val);
      assert patients == patients[..n] + [patients[n]];
    }
  }

  /** With distinct patients and validation a prefix, test is the rest of the
      shuffled list, in order. */
  lemma TestIsRest(patients: seq<string>, k: nat)
    requires Distinct(patients) && k <= |patients|
    ensures TestPatients(patients, patients[..k]) == patients[k..]
  {
    forall i | k <= i < |patients| ensures patients[i] !in patients[..k] {
      LaterNotInPrefix(patients, k, i);
    }
    TestPrefixIsRest(patients, k, |patients|);
    assert patients[..|patients|] == patients;
  }

  lemma {:induction false} TestPrefixIsRest(patients: seq<string>, k: nat, m: nat)
    requires k <= |patients| && m <= |patients|
    requires forall i :: k <= i < |patients| ==> patients[i] !in patients[..k]
    ensures TestPatients(patients[..m], patients[..k]) == (if m <= k then [] else patients[k..m])
  {
    if m > 0 {
      var val, p := patients[..k], patients[m - 1];
      TestPrefixIsRest(patients, k, m - 1);
      TestStep(patients, val, m);
      if m - 1 < k {
        assert val[m - 1] == p;
      } else {
        SliceExtend(patients, k, m);
      }
    }
  }

  lemma TestStep(patients: seq<string>, val: seq<string>, m: nat)
    requires 0 < m <= |patients|
    ensures TestPatients(patients[..m], val) ==
      TestPatients(patients[..m - 1], val) + (if patients[m - 1] in val then [] else [patients[m - 1]])
  {
    assert patients[..m][..m - 1] == patients[..m - 1];
  }

  lemma SliceExtend(s: seq<string>, k: nat, m: nat)
    requires k < m <= |s|
    ensures s[k..m] == s[k..m - 1] + [s[m - 1]]
  {
  }

  /** In a list without repeats, an entry at or after `k` is not among the first `k`. */
  lemma LaterNotInPrefix(s: seq<string>, k: nat, i: nat)
    requires Distinct(s) && k <= i < |s|
    ensures s[i] !in s[..k]
  {
    forall t | 0 <= t < k ensures s[..k][t] != s[i] {
      assert s[..k][t] == s[t];
    }
  }

  // ---------- counting ----------

  lemma {:induction false} TotalConcat(groups: map<string, seq<string>>, a: seq<string>, b: seq<string>)
    ensures Total(groups, a + b) == Total(groups, a) + Total(groups, b)
  {
    if |b| > 0 {
      var n := |b| - 1;
      TotalConcat(groups, a, b[..n]);
      assert (a + b)[..|a| + n] == a + b[..n];
    } else {
      assert a + b == a;
    }
  }

  /** Reordering the patients does not change the image count. */
  lemma {:induction false} TotalPermutation(groups: map<string, seq<string>>, a: seq<string>, b: seq<string>)
    requires multiset(a) == multiset(b)
    ensures Total(groups, a) == Total(groups, b)
    decreases |a|
  {
    if |a| == 0 {
      assert |b| == |multiset(b)| == 0;
    } else {
      var n := |a| - 1;
      var x := a[n];
      assert a == a[..n] + [x];
      assert x in multiset(b);
      var i :| 0 <= i < |b| && b[i] == x;
      var rest := b[..i] + b[i + 1..];
      assert b == b[..i] + [x] + b[i + 1..];
      assert multiset(rest) == multiset(b[..i]) + multiset(b[i + 1..]);
      assert multiset(b) == multiset(b[..i]) + multiset{x} + multiset(b[i + 1..]);
      assert multiset(a) == multiset(a[..n]) + multiset{x};
      assert multiset(a[..n]) == multiset(a) - multiset{x};
      assert multiset(rest) == multiset(b) - multiset{x};
      TotalPermutation(groups, a[..n], rest);
      TotalConcat(groups, b[..i], b[i + 1..]);
      TotalConcat(groups, b[..i] + [x], b[i + 1..]);
      TotalConcat(groups, b[..i], [x]);
      assert [x][..0] == [];
    }
  }

  /** The sizes of the lists of `keys`' groups, summed over `pids`. */
  function GroupTotal(keys: seq<string>, vals: seq<string>, pids: seq<string>): nat
    requires |keys| == |vals|
  {
    if |pids| == 0 then 0
    else GroupTotal(keys, vals, pids[..|pids| - 1]) + |Collect(keys, vals, pids[|pids| - 1])|
  }

  /** How often `k` occurs in `s`. */
  function Occurrences(s: seq<string>, k: string): nat
  {
    if |s| == 0 then 0 else Occurrences(s[..|s| - 1], k) + (if s[|s| - 1] == k then 1 else 0)
  }

  lemma {:induction false} OccurrencesDistinct(s: seq<string>, k: string)
    requires Distinct(s)
    ensures Occurrences(s, k) == (if k in s then 1 else 0)
  {
    if |s| > 0 {
      var n := |s| - 1;
      OccurrencesDistinct(s[..n], k);
      assert s == s[..n] + [s[n]];
      if s[n] == k {
        assert k !in s[..n] by {
          forall t | 0 <= t < n ensures s[..n][t] != k {
            assert s[t] != s[n];
          }
        }
      }
    }
  }

  /** One more key/value pair adds one to the total of every list of keys that
      names that key once. */
  lemma {:induction false} GroupTotalAppend(keys: seq<string>, vals: seq<string>, k: string, v: string, pids: seq<string>)
    requires |keys| == |vals|
    ensures GroupTotal(keys + [k], vals + [v], pids) == GroupTotal(keys, vals, pids) + Occurrences(pids, k)
  {
    if |pids| > 0 {
      GroupTotalAppend(keys, vals, k, v, pids[..|pids| - 1]);
      AppendKey(keys, vals, k, v);
    }
  }

  /** Summed over the distinct keys, the groups hold every value once. */
  lemma {:induction false} GroupTotalFirstSeen(keys: seq<string>, vals: seq<string>)
    requires |keys| == |vals|
    ensures GroupTotal(keys, vals, FirstSeen(keys)) == |keys|
  {
    if |keys| > 0 {
      var n := |keys| - 1;
      var pre, pv, k := keys[..n], vals[..n], keys[n];
      assert keys == pre + [k];
      assert vals == pv + [vals[n]];
      GroupTotalFirstSeen(pre, pv);
      AppendKey(pre, pv, k, vals[n]);
      var fs := FirstSeen(pre);
      FirstSeenDistinct(pre);
      FirstSeenMembers(pre);
      GroupTotalAppend(pre, pv, k, vals[n], fs);
      OccurrencesDistinct(fs, k);
      if k !in pre {
        assert k !in fs;
        CollectAbsent(pre, pv, k);
        assert (fs + [k])[..|fs|] == fs;
      }
    }
  }

  /** Where a dictionary holds exactly the groups, `Total` is `GroupTotal`. */
  lemma {:induction false} TotalOfGroups(groups: map<string, seq<string>>, keys: seq<string>, vals: seq<string>, pids: seq<string>)
    requires |keys| == |vals|
    requires forall p :: p in groups <==> p in keys
    requires forall p :: p in groups ==> groups[p] == Collect(keys, vals, p)
    ensures Total(groups, pids) == GroupTotal(keys, vals, pids)
  {
    if |pids| > 0 {
      var p := pids[|pids| - 1];
      TotalOfGroups(groups, keys, vals, pids[..|pids| - 1]);
      if p !in groups {
        CollectAbsent(keys, vals, p);
      }
    }
  }

  /** A permutation of distinct values is distinct. */
  lemma DistinctPermutation(a: seq<string>, b: seq<string>)
    requires Distinct(a) && multiset(a) == multiset(b)
    ensures Distinct(b)
  {
    forall i, j | 0 <= i < j < |b| ensures b[i] != b[j] {
      if b[i] == b[j] {
        var x := b[i];
        assert b == b[..i] + [x] + b[i + 1..j] + [x] + b[j + 1..];
        assert multiset(b)[x] >= 2;
        OccurrencesDistinct(a, x);
        OccurrencesCount(a, x);
        assert false;
      }
    }
  }

  lemma {:induction false} OccurrencesCount(s: seq<string>, k: string)
    ensures Occurrences(s, k) == multiset(s)[k]
  {
    if |s| > 0 {
      var n := |s| - 1;
      OccurrencesCount(s[..n], k);
      assert s == s[..n] + [s[n]];
    }
  }

  /** Validation and test together count every image of the shuffled patients. */
  lemma SplitTotal(groups: map<string, seq<string>>, patients: seq<string>, k: nat)
    requires Distinct(patients) && k <= |patients|
    ensures Total(groups, patients[..k]) + Total(groups, TestPatients(patients, patients[..k])) == Total(groups, patients)
  {
    TestIsRest(patients, k);
    assert patients == patients[..k] + patients[k..];
    TotalConcat(groups, patients[..k], patients[k..]);
  }

  /** The image counts of the two splits add up to the class's kept images. */
  lemma CountsAddUp(dir: string, names: seq<string>, groups: map<string, seq<string>>, patients: seq<string>, k: nat)
    requires var ks := KeptImages(dir, names);
      (forall p :: p in groups <==> p in Pids(ks)) &&
      (forall p :: p in groups ==> groups[p] == Collect(Pids(ks), Files(ks), p))
    requires multiset(patients) == multiset(FirstSeen(Pids(KeptImages(dir, names))))
    requires k <= |patients|
    ensures Total(groups, patients[..k]) + Total(groups, TestPatients(patients, patients[..k])) ==
      |KeptImages(dir, names)|
  {
    var ks := KeptImages(dir, names);
    var fs := FirstSeen(Pids(ks));
    FirstSeenDistinct(Pids(ks));
    DistinctPermutation(fs, patients);
    SplitTotal(groups, patients, k);
    TotalPermutation(groups, patients, fs);
    TotalOfGroups(groups, Pids(ks), Files(ks), fs);
    GroupTotalFirstSeen(Pids(ks), Files(ks));
  }

  // ---------- one class, start to end ----------

  /** The split of class `cls` as the script leaves it: the folder's kept images
      grouped by patient in first-seen order, those patients shuffled, the
      validation split chosen by the greedy stop rule, test the rest, the two
      counts their image totals adding up to the kept images, and the target
      reached whenever the class has enough images. */
  ghost predicate IsClassSplit(r: ClassSplit, cls: string, names: seq<string>, shuffle: seq<string> -> seq<string>)
  {
    var ks := KeptImages(WinJoin(DataRoot, cls), names);
    && r.order == FirstSeen(Pids(ks))
    && (forall p :: p in r.groups <==> p in Pids(ks))
    && (forall p :: p in r.groups ==> r.groups[p] == Collect(Pids(ks), Files(ks), p))
    && r.patients == shuffle(r.order)
    && |r.val| <= |r.patients| && r.val == r.patients[..|r.val|] && StopsAt(r.groups, r.patients, Target(cls), |r.val|)
    && r.test == r.patients[|r.val|..]
    && r.valCount == Total(r.groups, r.val) && r.testCount == Total(r.groups, r.test)
    && r.valCount + r.testCount == |ks|
    && (|ks| >= Target(cls) ==> r.valCount >= Target(cls))
  }

  /** Group, shuffle with `shuffle`, select and complement, for class `cls`. */
  method SplitClass(cls: string, names: seq<string>, shuffle: seq<string> -> seq<string>) returns (r: ClassSplit)
    requires forall s :: multiset(shuffle(s)) == multiset(s)
    ensures IsClassSplit(r, cls, names, shuffle)
  {
    var dir := WinJoin(DataRoot, cls);
    var order, groups := GroupClass(dir, names);
    var patients := shuffle(order);
    var val, count := SelectValidation(groups, patients, Target(cls));
    var test := TestPatients(patients, val);
    ghost var ks := KeptImages(dir, names);
    FirstSeenDistinct(Pids(ks));
    DistinctPermutation(order, patients);
    TestIsRest(patients, |val|);
    CountsAddUp(dir, names, groups, patients, |val|);
    assert Total(groups, patients) == |ks| by {
      TotalConcat(groups, val, test);
      assert patients == val + test;
    }
    r := ClassSplit(order, groups, patients, val, test, count, Total(groups, test));
  }

  /** The whole script for both folders; each class has its own shuffle, as two
      successive calls to `random.shuffle` on one generator. */
  method CreateValTestSplit(neoNames: seq<string>, ndbeNames: seq<string>,
                            shuffleNeo: seq<string> -> seq<string>, shuffleNdbe: seq<string> -> seq<string>)
    returns (neo: ClassSplit, ndbe: ClassSplit, copies: seq<Copy>, testImages: seq<string>)
    requires forall s :: multiset(shuffleNeo(s)) == multiset(s)
    requires forall s :: multiset(shuffleNdbe(s)) == multiset(s)
    ensures IsClassSplit(neo, "neo", neoNames, shuffleNeo)
    ensures IsClassSplit(ndbe, "ndbe", ndbeNames, shuffleNdbe)
    ensures copies == CopyImages(neo, ndbe, "val", true) + CopyImages(neo, ndbe, "test", false)
    ensures testImages == Sources(CopyImages(neo, ndbe, "test", false))
    ensures |copies| == neo.valCount + ndbe.valCount + neo.testCount + ndbe.testCount
  {
    neo := SplitClass("neo", neoNames, shuffleNeo);
    ndbe := SplitClass("ndbe", ndbeNames, shuffleNdbe);
    var valCopies := CopyImages(neo, ndbe, "val", true);
    var testCopies := CopyImages(neo, ndbe, "test", false);
    copies := valCopies + testCopies;
    testImages := Sources(testCopies);
    CopyImagesCount(neo, ndbe, "val", true);
    CopyImagesCount(neo, ndbe, "test", false);
  }

  // ---------- the copies ----------

  /** `copy_images`: for each class, each of its chosen patients and each of
      their files, a copy into `<split root>\<split>\<cls>`; `useVal` chooses
      the validation patients, otherwise the test patients. */
  function CopyImages(neo: ClassSplit, ndbe: ClassSplit, split: string, useVal: bool): (copies: seq<Copy>)
    ensures |copies| == if useVal then Total(neo.groups, neo.val) + Total(ndbe.groups, ndbe.val)
                        else Total(neo.groups, neo.test) + Total(ndbe.groups, ndbe.test)
  {
    PatientCopiesCount(neo.groups, if useVal then neo.val else neo.test, WinJoin(SplitRoot, WinJoin(split, "neo")));
    PatientCopiesCount(ndbe.groups, if useVal then ndbe.val else ndbe.test, WinJoin(SplitRoot, WinJoin(split, "ndbe")));
    PatientCopies(neo.groups, if useVal then neo.val else neo.test, WinJoin(SplitRoot, WinJoin(split, "neo")))
    + PatientCopies(ndbe.groups, if useVal then ndbe.val else ndbe.test, WinJoin(SplitRoot, WinJoin(split, "ndbe")))
  }

  function PatientCopies(groups: map<string, seq<string>>, pids: seq<string>, dest: string): seq<Copy>
  {
    if |pids| == 0 then []
    else
      var p := pids[|pids| - 1];
      PatientCopies(groups, pids[..|pids| - 1], dest) + FileCopies(if p in groups then groups[p] else [], dest)
  }

  function FileCopies(files: seq<string>, dest: string): (r: seq<Copy>)
  {
    if |files| == 0 then [] else FileCopies(files[..|files| - 1], dest) + [Copy(files[|files| - 1], dest)]
  }

  /** The source paths of a list of copies (`test_image_paths`). */
  function Sources(copies: seq<Copy>): (r: seq<string>)
    ensures |r| == |copies|
  {
    if |copies| == 0 then [] else Sources(copies[..|copies| - 1]) + [copies[|copies| - 1].source]
  }

  /** A file's copy keeps its source path and goes to the given folder. */
  lemma {:induction false} FileCopiesShape(files: seq<string>, dest: string)
    ensures |FileCopies(files, dest)| == |files|
    ensures forall i :: 0 <= i < |files| ==> FileCopies(files, dest)[i] == Copy(files[i], dest)
  {
    if |files| > 0 {
      FileCopiesShape(files[..|files| - 1], dest);
    }
  }

  /** Each split folder receives as many copies as the split's image count. */
  lemma {:induction false} PatientCopiesCount(groups: map<string, seq<string>>, pids: seq<string>, dest: string)
    ensures |PatientCopies(groups, pids, dest)| == Total(groups, pids)
  {
    if |pids| > 0 {
      var p := pids[|pids| - 1];
      PatientCopiesCount(groups, pids[..|pids| - 1], dest);
      FileCopiesShape(if p in groups then groups[p] else [], dest);
    }
  }

  lemma CopyImagesCount(neo: ClassSplit, ndbe: ClassSplit, split: string, useVal: bool)
    requires neo.valCount == Total(neo.groups, neo.val) && neo.testCount == Total(neo.groups, neo.test)
    requires ndbe.valCount == Total(ndbe.groups, ndbe.val) && ndbe.testCount == Total(ndbe.groups, ndbe.test)
    ensures |CopyImages(neo, ndbe, split, useVal)| ==
      if useVal then neo.valCount + ndbe.valCount else neo.testCount + ndbe.testCount
  {
    PatientCopiesCount(neo.groups, if useVal then neo.val else neo.test, WinJoin(SplitRoot, WinJoin(split, "neo")));
    PatientCopiesCount(ndbe.groups, if useVal then ndbe.val else ndbe.test, WinJoin(SplitRoot, WinJoin(split, "ndbe")));
  }
}
