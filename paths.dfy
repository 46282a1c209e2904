/** POSIX path handling the agent relies on (`os.path.join`,
    `os.path.basename`), the allow-list of image extensions, and the
    filtering of a directory listing into input frames. */
module Paths {

  /** The extensions `get_files` accepts; the test is case-sensitive. */
  const SupportedInFormat: seq<string> := [".jpg", ".png", ".JPG", ".PNG"]

  /** `s.endswith(suffix)` */
  predicate EndsWith(s: string, suffix: string)
  {
    |suffix| <= |s| && s[|s| - |suffix|..] == suffix
  }

  /** `name.endswith(tuple(SUPPORT_IN_FORMAT))` */
  predicate Supported(name: string)
  {
    exists k :: 0 <= k < |SupportedInFormat| && EndsWith(name, SupportedInFormat[k])
  }

  /** `os.path.join(a, b)` on POSIX: an absolute `b` replaces `a`; a
      separator is inserted unless `a` is empty or already ends in one. */
  function Join(a: string, b: string): string
  {
    if |b| > 0 && b[0] == '/' then b
    else if a == [] || a[|a| - 1] == '/' then a + b
    else a + "/" + b
  }

  /** Index just past the last `/` of `s`, or 0 when there is none. */
  function BaseStart(s: string): (k: nat)
    ensures k <= |s|
    ensures k > 0 ==> s[k - 1] == '/'
    ensures forall i :: k <= i < |s| ==> s[i] != '/'
  {
    if s == [] then 0
    else if s[|s| - 1] == '/' then |s|
    else BaseStart(s[..|s| - 1])
  }

  /** `os.path.basename(s)`: what follows the last `/`. */
  function Basename(s: string): string
  {
    s[BaseStart(s)..]
  }

  /** A sequence whose elements are pairwise different. */
  ghost predicate Distinct<T>(s: seq<T>)
  {
    forall i, j :: 0 <= i < j < |s| ==> s[i] != s[j]
  }

  /** The base names of a list of paths, in order. */
  function Basenames(files: seq<string>): (r: seq<string>)
    ensures |r| == |files|
    ensures forall i :: 0 <= i < |files| ==> r[i] == Basename(files[i])
  {
    seq(|files|, i requires 0 <= i < |files| => Basename(files[i]))
  }

  /** The comprehension of `get_files`: `os.path.join(path, name)` for
      every listed name with a supported extension, in listing order. */
  function Listed(path: string, names: seq<string>): (r: seq<string>)
    ensures |r| <= |names|
  {
    if names == [] then []
    else (if Supported(names[0]) then [Join(path, names[0])] else []) + Listed(path, names[1..])
  }

  /** A path joined with a plain name (no `/` in it, as every entry of a
      directory listing is) has that name as its base name. */
  lemma {:induction false} BasenameOfJoin(dir: string, name: string)
    requires '/' !in name
    ensures Basename(Join(dir, name)) == name
  {
    var j := Join(dir, name);
    var head := j[..|j| - |name|];
    assert j == head + name;
    assert head == [] || head[|head| - 1] == '/';
    BaseStartAfterSeparator(head, name);
  }

  lemma {:induction false} BaseStartAfterSeparator(head: string, tail: string)
    requires head == [] || head[|head| - 1] == '/'
    requires '/' !in tail
    ensures BaseStart(head + tail) == |head|
    decreases |tail|
  {
    if tail == [] {
      assert head + tail == head;
    } else {
      var s := head + tail;
      assert s[|s| - 1] == tail[|tail| - 1];
      assert s[..|s| - 1] == head + tail[..|tail| - 1];
      BaseStartAfterSeparator(head, tail[..|tail| - 1]);
    }
  }

  /** Joining onto a fixed directory is injective on plain names. */
  lemma JoinInjective(dir: string, a: string, b: string)
    requires '/' !in a && '/' !in b
    ensures Join(dir, a) == Join(dir, b) ==> a == b
  {
    BasenameOfJoin(dir, a);
    BasenameOfJoin(dir, b);
  }

  /** Joining onto a fixed directory is injective on relative names. */
  lemma JoinRelativeInjective(dir: string, a: string, b: string)
    requires a == [] || a[0] != '/'
    requires b == [] || b[0] != '/'
    ensures Join(dir, a) == Join(dir, b) ==> a == b
  {
    var head := if dir == [] || dir[|dir| - 1] == '/' then dir else dir + "/";
    assert Join(dir, a) == head + a && Join(dir, b) == head + b;
    if Join(dir, a) == Join(dir, b) {
      assert a == (head + a)[|head|..];
      assert b == (head + b)[|head|..];
    }
  }

  /** A path is listed exactly when it is the join of a listed name with a
      supported extension. */
  lemma {:induction false} ListedMembers(path: string, names: seq<string>, f: string)
    ensures f in Listed(path, names) <==>
            exists k :: 0 <= k < |names| && Supported(names[k]) && f == Join(path, names[k])
  {
    if names != [] {
      ListedMembers(path, names[1..], f);
      if f in Listed(path, names[1..]) {
        var k :| 0 <= k < |names[1..]| && Supported(names[1..][k]) && f == Join(path, names[1..][k]);
        assert names[k + 1] == names[1..][k];
      }
      if exists k :: 0 <= k < |names| && Supported(names[k]) && f == Join(path, names[k]) {
        var k :| 0 <= k < |names| && Supported(names[k]) && f == Join(path, names[k]);
        if k > 0 {
          assert names[1..][k - 1] == names[k];
        }
      }
    }
  }

  /** Distinct plain names give distinct listed paths. */
  lemma {:induction false} ListedDistinct(path: string, names: seq<string>)
    requires forall k :: 0 <= k < |names| ==> '/' !in names[k]
    requires Distinct(names)
    ensures Distinct(Listed(path, names))
  {
    if names != [] {
      ListedDistinct(path, names[1..]);
      var rest := Listed(path, names[1..]);
      if Supported(names[0]) {
        assert Join(path, names[0]) !in rest by {
          ListedMembers(path, names[1..], Join(path, names[0]));
          forall k | 0 <= k < |names[1..]|
            ensures Join(path, names[0]) != Join(path, names[1..][k])
          {
            assert names[1..][k] == names[k + 1];
            JoinInjective(path, names[0], names[k + 1]);
          }
        }
        var r := [Join(path, names[0])] + rest;
        forall i, j | 0 <= i < j < |r| ensures r[i] != r[j] {
          if i == 0 {
            assert r[j] == rest[j - 1];
          } else {
            assert r[i] == rest[i - 1] && r[j] == rest[j - 1];
          }
        }
      } else {
        assert Listed(path, names) == rest;
      }
    }
  }

  /** Reordering preserves distinctness. */
  lemma {:induction false} DistinctPermutation<T>(a: seq<T>, b: seq<T>)
    requires multiset(a) == multiset(b)
    requires Distinct(a)
    ensures Distinct(b)
  {
    DistinctCounts(a);
    DistinctCounts(b);
  }

  /** A sequence is distinct exactly when no element occurs twice in it. */
  lemma {:induction false} DistinctCounts<T>(s: seq<T>)
    ensures Distinct(s) <==> forall x :: multiset(s)[x] <= 1
  {
    if s != [] {
      var rest := s[1..];
      assert s == [s[0]] + rest;
      assert multiset(s) == multiset{s[0]} + multiset(rest);
      DistinctCounts(rest);
      if Distinct(s) {
        assert s[0] !in rest by {
          forall j | 0 <= j < |rest| ensures rest[j] != s[0] {
            assert rest[j] == s[j + 1];
          }
        }
        assert Distinct(rest) by {
          forall i, j | 0 <= i < j < |rest| ensures rest[i] != rest[j] {
            assert rest[i] == s[i + 1] && rest[j] == s[j + 1];
          }
        }
      }
      if forall x :: multiset(s)[x] <= 1 {
        assert multiset(rest)[s[0]] == 0 by {
          assert multiset(s)[s[0]] == 1 + multiset(rest)[s[0]];
        }
        assert forall x :: multiset(rest)[x] <= 1 by {
          forall x ensures multiset(rest)[x] <= 1 {
            assert multiset(s)[x] >= multiset(rest)[x];
          }
        }
        forall i, j | 0 <= i < j < |s| ensures s[i] != s[j] {
          if i == 0 {
            assert s[j] == rest[j - 1];
            assert s[j] in multiset(rest);
          } else {
            assert s[i] == rest[i - 1] && s[j] == rest[j - 1];
          }
        }
      }
    }
  }

  /** Whatever order the frames are sorted into, the frames taken from a
      listing of distinct entries have pairwise different base names. */
  lemma FilesHaveDistinctBasenames(path: string, names: seq<string>, files: seq<string>)
    requires forall k :: 0 <= k < |names| ==> '/' !in names[k]
    requires Distinct(names)
    requires multiset(files) == multiset(Listed(path, names))
    ensures Distinct(Basenames(files))
  {
    ListedDistinct(path, names);
    DistinctPermutation(Listed(path, names), files);
    var bs := Basenames(files);
    forall i, j | 0 <= i < j < |bs| ensures bs[i] != bs[j] {
      assert files[i] in multiset(Listed(path, names));
      assert files[j] in multiset(Listed(path, names));
      ListedMembers(path, names, files[i]);
      ListedMembers(path, names, files[j]);
      var ki :| 0 <= ki < |names| && Supported(names[ki]) && files[i] == Join(path, names[ki]);
      var kj :| 0 <= kj < |names| && Supported(names[kj]) && files[j] == Join(path, names[kj]);
      BasenameOfJoin(path, names[ki]);
      BasenameOfJoin(path, names[kj]);
    }
  }
}
