/** Slash-separated text: splitting, joining, and the component view under which the source
    compares paths (`Path::starts_with` and `PathBuf` equality ignore repeated separators,
    interior `.` components and a trailing separator). */
module Text {
  import opened Wrappers

  /** A path as the list of its components. The root of an absolute path is the component "/". */
  type Path = seq<string>

  /** The pieces of `s` between separators; there is always at least one. */
  function Split(s: string): (parts: seq<string>)
    ensures |parts| >= 1
    ensures forall k :: 0 <= k < |parts| ==> '/' !in parts[k]
  {
    if s == "" then [""] else Prepend(s[0], Split(s[1..]))
  }

  /** The pieces after putting one more character in front of the text. */
  function Prepend(c: char, parts: seq<string>): seq<string>
    requires |parts| >= 1
  {
    if c == '/' then [""] + parts else [[c] + parts[0]] + parts[1..]
  }

  lemma PrependAppend(c: char, left: seq<string>, right: seq<string>)
    requires |left| >= 1
    ensures Prepend(c, left + right) == Prepend(c, left) + right
  {
    assert (left + right)[0] == left[0] && (left + right)[1..] == left[1..] + right;
    if c == '/' {
      assert [""] + (left + right) == ([""] + left) + right;
    } else {
      var head := [[c] + left[0]];
      assert head + (left[1..] + right) == (head + left[1..]) + right;
    }
  }

  /** The pieces put back together with one separator between neighbours. */
  function Join(parts: seq<string>): string
    requires |parts| >= 1
  {
    if |parts| == 1 then parts[0] else parts[0] + "/" + Join(parts[1..])
  }

  lemma {:induction false} JoinSplit(s: string)
    ensures Join(Split(s)) == s
  {
    if s != "" {
      JoinSplit(s[1..]);
      var rest := Split(s[1..]);
      if s[0] == '/' {
        assert ([""] + rest)[1..] == rest;
      } else {
        var parts := [[s[0]] + rest[0]] + rest[1..];
        assert parts == Split(s);
        assert parts[1..] == rest[1..];
        if |rest| == 1 {
          assert Join(rest) == rest[0];
        } else {
          assert Join(rest) == rest[0] + "/" + Join(rest[1..]);
          assert Join(parts) == [s[0]] + rest[0] + "/" + Join(rest[1..]);
        }
      }
    }
  }

  lemma {:induction false} SplitNoSlash(s: string)
    requires '/' !in s
    ensures Split(s) == [s]
  {
    if s != "" {
      SplitNoSlash(s[1..]);
      assert [s[0]] + s[1..] == s;
    }
  }

  /** Splitting distributes over a separator: the pieces of the left side, then of the right. */
  lemma {:induction false} SplitAppend(a: string, b: string)
    ensures Split(a + "/" + b) == Split(a) + Split(b)
  {
    var whole := a + "/" + b;
    if a == "" {
      assert whole[1..] == b;
    } else {
      SplitAppend(a[1..], b);
      assert whole[1..] == a[1..] + "/" + b;
      PrependAppend(a[0], Split(a[1..]), Split(b));
    }
  }

  lemma {:induction false} SplitJoin(parts: seq<string>)
    requires |parts| >= 1
    requires forall k :: 0 <= k < |parts| ==> '/' !in parts[k]
    ensures Split(Join(parts)) == parts
  {
    SplitNoSlash(parts[0]);
    if |parts| == 1 {
    } else {
      SplitJoin(parts[1..]);
      SplitAppend(parts[0], Join(parts[1..]));
    }
  }

  /** Component names: empty pieces and `.` carry no name. */
  function Named(parts: seq<string>): (names: seq<string>)
  {
    if parts == [] then []
    else (if parts[0] == "" || parts[0] == "." then [] else [parts[0]]) + Named(parts[1..])
  }

  lemma {:induction false} NamedAppend(a: seq<string>, b: seq<string>)
    ensures Named(a + b) == Named(a) + Named(b)
  {
    if a == [] {
      assert a + b == b;
    } else {
      assert (a + b)[1..] == a[1..] + b;
      NamedAppend(a[1..], b);
    }
  }

  predicate Absolute(s: string) {
    s != "" && s[0] == '/'
  }

  /** The components of a textual path; a leading `.` of a relative path is kept. */
  function Components(s: string): Path {
    var parts := Split(s);
    if Absolute(s) then ["/"] + Named(parts)
    else if parts[0] == "." then ["."] + Named(parts[1..])
    else Named(parts)
  }

  /** `Path::starts_with`: a component-wise ancestor, or the path itself. */
  predicate Beneath(root: Path, path: Path) {
    root <= path
  }

  /** Extending an absolute path below a separator keeps every component it already had. */
  lemma ExtendedPathIsBeneath(root: string, rest: string)
    requires Absolute(root)
    ensures Beneath(Components(root), Components(root + "/" + rest))
  {
    SplitAppend(root, rest);
    NamedAppend(Split(root), Split(rest));
  }

  /** The pieces hold no characters the text did not have. */
  lemma {:induction false} SplitKeepsCharacters(s: string, k: nat, c: char)
    requires k < |Split(s)| && c in Split(s)[k]
    ensures c in s
    decreases |s|
  {
    if s != "" {
      var rest := Split(s[1..]);
      if s[0] == '/' {
        SplitKeepsCharacters(s[1..], k - 1, c);
      } else if k == 0 {
        if c != s[0] {
          SplitKeepsCharacters(s[1..], 0, c);
        }
      } else {
        SplitKeepsCharacters(s[1..], k, c);
      }
    }
  }

  /** The position of the last separator, if any. */
  function LastSlash(s: string): (r: Option<nat>)
    ensures r.Some? ==> r.value < |s| && s[r.value] == '/' && '/' !in s[r.value + 1..]
    ensures r.None? ==> '/' !in s
  {
    if s == "" then None
    else if s[|s| - 1] == '/' then Some(|s| - 1)
    else LastSlash(s[..|s| - 1])
  }

  lemma {:induction false} LastSlashBeforeTail(a: string, tail: string)
    requires '/' !in tail
    ensures LastSlash(a + "/" + tail) == Some(|a|)
    decreases |tail|
  {
    var s := a + "/" + tail;
    if tail == "" {
      assert s[|s| - 1] == '/';
    } else {
      assert s[|s| - 1] == tail[|tail| - 1];
      assert s[..|s| - 1] == a + "/" + tail[..|tail| - 1];
      LastSlashBeforeTail(a, tail[..|tail| - 1]);
    }
  }

  /** `trim_end_matches('/')`. */
  function TrimEndSlashes(s: string): (r: string)
    ensures r <= s && (r == "" || r[|r| - 1] != '/')
  {
    if s != "" && s[|s| - 1] == '/' then TrimEndSlashes(s[..|s| - 1]) else s
  }

  /** Trailing separators name nothing. */
  lemma {:induction false} TrimKeepsNames(s: string)
    ensures Named(Split(TrimEndSlashes(s))) == Named(Split(s))
    decreases |s|
  {
    if s != "" && s[|s| - 1] == '/' {
      var a := s[..|s| - 1];
      TrimKeepsNames(a);
      assert s == a + "/" + "";
      SplitAppend(a, "");
      NamedAppend(Split(a), [""]);
    }
  }

  lemma SplitOfAbsolute(s: string)
    requires Absolute(s)
    ensures Split(s)[0] == ""
  {}

  lemma SplitStartsEmpty(s: string)
    requires Split(s)[0] == ""
    ensures s == "" || Absolute(s)
  {}
}
