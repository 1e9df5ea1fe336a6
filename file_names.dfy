/** File-name conventions shared by the data-preparation scripts: which files
    are images, and how a patient id is read off an image's name. */
module FileNames {
  import opened Wrappers
  import opened Strings

  /** `name.lower().endswith(('.jpg', '.jpeg', '.png'))`: an image name is at
      least as long as its extension. */
  predicate HasImageExtension(name: string)
    ensures HasImageExtension(name) ==> |name| >= 4
  {
    var lower := Lower(name);
    EndsWith(lower, ".jpg") || EndsWith(lower, ".jpeg") || EndsWith(lower, ".png")
  }

  /** The extension test ignores case: lowering the name first changes nothing. */
  lemma ImageExtensionIgnoresCase(name: string)
    ensures HasImageExtension(Lower(name)) == HasImageExtension(name)
  {
    LowerPointwise(name);
    LowerPointwise(Lower(name));
    assert Lower(Lower(name)) == Lower(name);
  }

  /** The patient id at the head of an image name: the name up to, and not
      including, its second underscore (all of it when there is only one). A
      name without an underscore has none. `PatientPrefixShape` states what it
      is, and `SplitJoinPrefix` shows it is `'_'.join(name.split('_')[:2])`
      whenever the split has two parts. */
  function PatientPrefix(name: string): (r: Option<string>)
  {
    if '_' in name then Some(IdHead(name, false)) else None
  }

  /** The head of `s` before its second underscore, or before its first when
      one was `seen` already. */
  function IdHead(s: string, seen: bool): string
  {
    if |s| == 0 || (s[0] == '_' && seen) then ""
    else [s[0]] + IdHead(s[1..], seen || s[0] == '_')
  }

  /** The head is a prefix ending at the end of `s` or at an underscore, and it
      holds the one underscore not yet seen, if `s` has one. */
  lemma {:induction false} IdHeadShape(s: string, seen: bool)
    ensures var p := IdHead(s, seen);
      && |p| <= |s| && s[..|p|] == p && (|p| == |s| || s[|p|] == '_')
      && Count(p, '_') == (if seen || '_' !in s then 0 else 1)
  {
    if |s| == 0 || (s[0] == '_' && seen) {
      assert IdHead(s, seen) == "";
    } else {
      var seen' := seen || s[0] == '_';
      IdHeadShape(s[1..], seen');
      var rest := IdHead(s[1..], seen');
      var p := [s[0]] + rest;
      assert IdHead(s, seen) == p;
      assert s == [s[0]] + s[1..];
      assert s[..|p|] == [s[0]] + s[1..][..|rest|];
      assert |p| < |s| ==> s[|p|] == s[1..][|rest|];
      CountConcat([s[0]], rest, '_');
      assert Count([s[0]], '_') == (if s[0] == '_' then 1 else 0) by {
        assert [s[0]][..0] == [];
      }
      assert ('_' in s) <==> (s[0] == '_' || '_' in s[1..]);
    }
  }

  /** A name has a patient id exactly when it holds an underscore, and the id is
      the one prefix of the name with the shape `IdPrefix` describes. */
  lemma PatientPrefixShape(name: string)
    ensures PatientPrefix(name).Some? <==> '_' in name
    ensures PatientPrefix(name).Some? ==> IdPrefix(name, PatientPrefix(name).value)
  {
    IdHeadShape(name, false);
  }

  /** `p` is a prefix of `name` holding exactly one underscore, and it ends where
      `name` does or at an underscore. */
  predicate IdPrefix(name: string, p: string)
  {
    |p| <= |name| && name[..|p|] == p && Count(p, '_') == 1 && (|p| == |name| || name[|p|] == '_')
  }

  /** Only one prefix of a name has that shape. */
  lemma IdPrefixUnique(name: string, p: string, q: string)
    requires IdPrefix(name, p) && IdPrefix(name, q)
    ensures p == q
  {
    IdPrefixNotShorter(name, p, q);
    IdPrefixNotShorter(name, q, p);
  }

  lemma IdPrefixNotShorter(name: string, p: string, q: string)
    requires IdPrefix(name, p) && IdPrefix(name, q)
    ensures |p| >= |q|
  {
    if |p| < |q| {
      assert q[..|p| + 1] == p + "_" by {
        assert q[|p|] == name[|p|];
      }
      CountConcat(p, "_", '_');
      assert Count("_", '_') == 1 by {
        assert "_"[..0] == [];
      }
      assert q == q[..|p| + 1] + q[|p| + 1..];
      CountConcat(q[..|p| + 1], q[|p| + 1..], '_');
    }
  }

  /** A split has one more part than the string has separators. */
  lemma {:induction false} SplitLength(s: string, sep: char)
    ensures |Split(s, sep)| == Count(s, sep) + 1
  {
    if |s| > 0 {
      SplitLength(s[1..], sep);
      assert s == [s[0]] + s[1..];
      CountConcat([s[0]], s[1..], sep);
      assert Count([s[0]], sep) == (if s[0] == sep then 1 else 0) by {
        assert [s[0]][..0] == [];
      }
    }
  }

  /** `PatientPrefix` is `'_'.join(name.split('_')[:2]) if len(parts) >= 2`. */
  lemma SplitJoinPrefix(name: string)
    ensures var parts := Split(name, '_');
      PatientPrefix(name) == (if |parts| >= 2 then Some(Join(parts[..2], '_')) else None)
  {
    var parts := Split(name, '_');
    SplitLength(name, '_');
    if '_' !in name {
      CountAbsent(name, '_');
      assert PatientPrefix(name) == None;
    } else {
      assert Count(name, '_') > 0 by {
        if Count(name, '_') == 0 { CountZero(name, '_'); }
      }
      JoinSplit(name, '_');
      var r := parts[0] + "_" + parts[1];
      PrefixShape(parts);
      CountAbsent(parts[0], '_');
      CountAbsent(parts[1], '_');
      CountConcat(parts[0], "_", '_');
      CountConcat(parts[0] + "_", parts[1], '_');
      assert Count("_", '_') == 1 by {
        assert "_"[..0] == [];
      }
      assert Join(parts[..2], '_') == r by {
        assert parts[..2][1..] == [parts[1]];
      }
      PatientPrefixShape(name);
      IdPrefixUnique(name, r, PatientPrefix(name).value);
    }
  }

  lemma CountZero(s: string, c: char)
    requires Count(s, c) == 0
    ensures c !in s
  {
    if |s| > 0 {
      CountZero(s[..|s| - 1], c);
      assert s == s[..|s| - 1] + [s[|s| - 1]];
    }
  }

  /** The joined string starts with its first two parts, followed by nothing or by a separator. */
  lemma PrefixShape(parts: seq<string>)
    requires |parts| >= 2
    ensures var r := parts[0] + "_" + parts[1];
      var j := Join(parts, '_');
      |r| <= |j| && j[..|r|] == r && (|r| == |j| || j[|r|] == '_')
  {
    var tail := Join(parts[1..], '_');
    assert Join(parts, '_') == parts[0] + ['_'] + tail;
    if |parts| == 2 {
      assert tail == parts[1];
    } else {
      assert parts[1..][1..] == parts[2..];
      assert tail == parts[1] + ['_'] + Join(parts[2..], '_');
    }
  }
}
