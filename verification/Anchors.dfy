/** Which opened hierarchy a path is resolved beneath. */
module Anchors {
  import opened Wrappers
  import opened Text

  predicate IsName(s: string) {
    s != "" && s != "." && '/' !in s
  }

  /** The text of a relative path with these components. */
  function NamesText(names: Path): string {
    if names == [] then "" else Join(names)
  }

  /** A root as canonicalization spells it: absolute, single separators, no trailing one. */
  ghost predicate Canonical(root: string) {
    Absolute(root) && root == "/" + NamesText(Components(root)[1..])
  }

  lemma {:induction false} NamedAreNames(parts: seq<string>)
    requires forall k :: 0 <= k < |parts| ==> '/' !in parts[k]
    ensures forall k :: 0 <= k < |Named(parts)| ==> IsName(Named(parts)[k])
  {
    if parts != [] {
      NamedAreNames(parts[1..]);
    }
  }

  lemma {:induction false} NamedOfNames(names: seq<string>)
    requires forall k :: 0 <= k < |names| ==> IsName(names[k])
    ensures Named(names) == names
  {
    if names != [] {
      NamedOfNames(names[1..]);
      assert names == [names[0]] + names[1..];
    }
  }

  lemma JoinStartsWithFirst(names: seq<string>)
    requires names != []
    ensures names[0] <= Join(names)
  {}

  /** The last of the longest roots that are ancestors of the path, among the first `n`. */
  function Longest(anchors: seq<string>, path: Path, n: nat): (best: Option<nat>)
    requires n <= |anchors|
    ensures best.Some? ==> best.value < n
  {
    if n == 0 then None
    else
      var best := Longest(anchors, path, n - 1);
      if Beneath(Components(anchors[n - 1]), path) && (best.None? || |anchors[n - 1]| >= |anchors[best.value]|)
      then Some(n - 1)
      else best
  }

  lemma {:induction false} LongestAbove(anchors: seq<string>, path: Path, n: nat)
    requires n <= |anchors|
    ensures var best := Longest(anchors, path, n);
            && (best.Some? ==> Beneath(Components(anchors[best.value]), path))
            && forall i :: 0 <= i < n && Beneath(Components(anchors[i]), path) ==>
                 best.Some? && |anchors[i]| <= |anchors[best.value]|
  {
    hide Components, Beneath;
    if n > 0 {
      LongestAbove(anchors, path, n - 1);
    }
  }

  /** The first anchor whose root is the workspace. */
  function WorkspaceAnchor(anchors: seq<string>, workspace: string, i: nat): (r: Option<nat>)
    requires i <= |anchors|
    decreases |anchors| - i
    ensures r.Some? ==> r.value < |anchors|
  {
    if i == |anchors| then None
    else if Components(anchors[i]) == Components(workspace) then Some(i)
    else WorkspaceAnchor(anchors, workspace, i + 1)
  }

  lemma {:induction false} WorkspaceAnchorIsFirst(anchors: seq<string>, workspace: string, i: nat)
    requires i <= |anchors|
    decreases |anchors| - i
    ensures var r := WorkspaceAnchor(anchors, workspace, i);
            && (r.Some? ==> Components(anchors[r.value]) == Components(workspace))
            && (r.None? ==> forall k :: i <= k < |anchors| ==> Components(anchors[k]) != Components(workspace))
  {
    hide Components;
    if i < |anchors| {
      WorkspaceAnchorIsFirst(anchors, workspace, i + 1);
    }
  }

  // ----- the relative part -----

  /** A piece that names no component. */
  predicate Unnamed(piece: string) {
    piece == "" || piece == "."
  }

  /** The pieces behind the first `n` named ones. */
  function Behind(pieces: seq<string>, n: nat): (rest: seq<string>)
    ensures |rest| <= |pieces| && rest == pieces[|pieces| - |rest|..]
    ensures n <= |Named(pieces)| ==> Named(rest) == Named(pieces)[n..]
  {
    if n == 0 || pieces == [] then pieces
    else if Unnamed(pieces[0]) then Behind(pieces[1..], n)
    else Behind(pieces[1..], n - 1)
  }

  function TrimStart(pieces: seq<string>): (rest: seq<string>)
    ensures |rest| <= |pieces| && rest == pieces[|pieces| - |rest|..]
    ensures Named(rest) == Named(pieces) && (rest == [] || !Unnamed(rest[0]))
  {
    if pieces == [] || !Unnamed(pieces[0]) then pieces else TrimStart(pieces[1..])
  }

  function TrimEnd(pieces: seq<string>): (rest: seq<string>)
    ensures rest <= pieces && (rest == [] || !Unnamed(rest[|rest| - 1]))
    ensures pieces != [] && !Unnamed(pieces[0]) ==> rest != []
    ensures Named(rest) == Named(pieces)
  {
    if pieces == [] || !Unnamed(pieces[|pieces| - 1]) then pieces
    else
      var init, last := pieces[..|pieces| - 1], pieces[|pieces| - 1..];
      NamedAppend(init, last);
      assert pieces == init + last;
      TrimEnd(init)
  }

  /** `Path::strip_prefix` of an ancestor with `n` named components: the rest of the text as it is
      spelled, without separators and `.` at its ends. */
  function Stripped(path: string, n: nat): string {
    var pieces := TrimEnd(TrimStart(Behind(Split(path), n)));
    if pieces == [] then "" else Join(pieces)
  }

  lemma StrippedComponents(path: string, n: nat)
    requires n <= |Named(Split(path))|
    ensures Components(Stripped(path, n)) == Named(Split(path))[n..] && !Absolute(Stripped(path, n))
    ensures Stripped(path, n) == "" || NamesAtEnds(Stripped(path, n))
  {
    hide Split, Named, Join, Components, NamesAtEnds, Unnamed, Behind, TrimStart, TrimEnd;
    var pieces := TrimEnd(TrimStart(Behind(Split(path), n)));
    if pieces == [] {
      NothingNamed();
    } else {
      JoinedPieces(pieces);
    }
  }

  /** The text starts and ends with a name. */
  predicate NamesAtEnds(text: string) {
    var pieces := Split(text);
    !Unnamed(pieces[0]) && !Unnamed(pieces[|pieces| - 1])
  }

  lemma NothingNamed()
    ensures Components("") == Named([]) == []
  {
    assert Split("") == [""];
  }

  lemma JoinedPieces(pieces: seq<string>)
    requires pieces != [] && !Unnamed(pieces[0]) && !Unnamed(pieces[|pieces| - 1])
    requires forall k :: 0 <= k < |pieces| ==> '/' !in pieces[k]
    ensures Components(Join(pieces)) == Named(pieces) && !Absolute(Join(pieces)) && NamesAtEnds(Join(pieces))
  {
    hide Split, Named, Join;
    SplitJoin(pieces);
    JoinStartsWithFirst(pieces);
  }

  lemma {:induction false} JoinAppend(a: seq<string>, b: seq<string>)
    requires a != [] && b != []
    ensures Join(a + b) == Join(a) + "/" + Join(b)
  {
    assert (a + b)[1..] == a[1..] + b;
    if |a| > 1 {
      JoinAppend(a[1..], b);
    }
  }

  lemma ShiftSlice(head: string, tail: string, k: nat, m: nat)
    requires k + m <= |tail|
    ensures (head + tail)[|head| + k..|head| + k + m] == tail[k..k + m]
  {}

  /** Any run of neighbouring pieces, joined, is a stretch of the joined whole. */
  lemma {:induction false} JoinOfSlice(pieces: seq<string>, i: nat, j: nat) returns (k: nat)
    requires i < j <= |pieces|
    ensures k + |Join(pieces[i..j])| <= |Join(pieces)|
    ensures Join(pieces)[k..k + |Join(pieces[i..j])|] == Join(pieces[i..j])
  {
    if i > 0 {
      assert pieces[1..][i - 1..j - 1] == pieces[i..j];
      k := JoinOfSlice(pieces[1..], i - 1, j - 1);
      ShiftSlice(pieces[0] + "/", Join(pieces[1..]), k, |Join(pieces[i..j])|);
      k := |pieces[0] + "/"| + k;
    } else {
      k := 0;
      assert pieces[0..j] == pieces[..j];
      if j < |pieces| {
        JoinAppend(pieces[..j], pieces[j..]);
        assert pieces == pieces[..j] + pieces[j..];
      } else {
        assert pieces[..j] == pieces;
      }
    }
  }

  /** Part of `whole`, spelled as it is there. */
  ghost predicate IsStretch(part: string, whole: string) {
    exists i, j :: 0 <= i <= j <= |whole| && whole[i..j] == part
  }

  lemma JoinedStretch(whole: seq<string>, rest: seq<string>, pieces: seq<string>)
    requires pieces != [] && pieces <= rest && |rest| <= |whole| && rest == whole[|whole| - |rest|..]
    ensures IsStretch(Join(pieces), Join(whole))
  {
    hide Join;
    var i := |whole| - |rest|;
    assert pieces == whole[i..i + |pieces|];
    var k := JoinOfSlice(whole, i, i + |pieces|);
  }

  lemma SuffixOfSuffix<T>(a: seq<T>, b: seq<T>, c: seq<T>)
    requires |c| <= |b| <= |a| && b == a[|a| - |b|..] && c == b[|b| - |c|..]
    ensures c == a[|a| - |c|..]
  {}

  /** The relative part is the path's own spelling. */
  lemma StrippedIsStretch(path: string, n: nat)
    ensures IsStretch(Stripped(path, n), path)
  {
    hide Join, Split, Behind, TrimStart, TrimEnd, IsStretch;
    var whole := Split(path);
    var behind := Behind(whole, n);
    var rest := TrimStart(behind);
    var pieces := TrimEnd(rest);
    JoinSplit(path);
    if pieces == [] {
      NothingIsStretch(path);
    } else {
      SuffixOfSuffix(whole, behind, rest);
      JoinedStretch(whole, rest, pieces);
    }
  }

  lemma NothingIsStretch(whole: string)
    ensures IsStretch("", whole)
  {
    assert whole[0..0] == "";
  }

  function Select(anchors: seq<string>, workspace: string, path: string): Option<(nat, string)> {
    if !Absolute(path) then None
    else
      var names := Components(path);
      var selected := if Beneath(Components(workspace), names) then WorkspaceAnchor(anchors, workspace, 0)
                      else Longest(anchors, names, |anchors|);
      match selected
      case None => None
      case Some(i) =>
        var root := Components(anchors[i]); Some((i, Stripped(path, if root == [] then 0 else |root| - 1)))
  }

  lemma AbsoluteComponents(path: string)
    requires Absolute(path)
    ensures Components(path) == ["/"] + Named(Split(path))
  {}

  lemma RootAndRest(root: Path, path: string)
    requires Absolute(path) && root != [] && Beneath(root, Components(path))
    ensures |root| - 1 <= |Named(Split(path))| && root + Named(Split(path))[|root| - 1..] == Components(path)
  {
    hide Components, Named, Split;
    AbsoluteComponents(path);
  }

  /** The selected root is an ancestor of the path, and the relative part is what is left of it, a
      stretch of its own text that starts and ends with a name. */
  lemma RootPlusRelativeIsPath(anchors: seq<string>, workspace: string, path: string)
    requires forall i :: 0 <= i < |anchors| ==> Absolute(anchors[i])
    ensures Select(anchors, workspace, path).Some? ==>
              var (i, relative) := Select(anchors, workspace, path).value;
              && i < |anchors| && Beneath(Components(anchors[i]), Components(path))
              && Components(anchors[i]) + Components(relative) == Components(path)
              && !Absolute(relative)
              && IsStretch(relative, path)
              && (relative != "" ==> NamesAtEnds(relative))
  {
    hide Stripped, IsStretch, NamesAtEnds, Components, Named, Split;
    var selected := Select(anchors, workspace, path);
    if selected.Some? {
      var root := Components(anchors[selected.value.0]);
      AbsoluteComponents(anchors[selected.value.0]);
      LongestAbove(anchors, Components(path), |anchors|);
      WorkspaceAnchorIsFirst(anchors, workspace, 0);
      RootAndRest(root, path);
      StrippedComponents(path, |root| - 1);
      StrippedIsStretch(path, |root| - 1);
    }
  }

  lemma RelativeHasNoRoot(path: string)
    requires !Absolute(path)
    ensures Components(path) == [] || Components(path)[0] != "/"
  {
    var parts := Split(path);
    NamedAreNames(parts);
    if parts[0] != "." && Named(parts) != [] {
      assert IsName(Named(parts)[0]);
    }
  }

  /** What lies beneath an absolute root is absolute. */
  lemma BeneathAbsolute(root: string, path: string)
    requires Absolute(root) && Beneath(Components(root), Components(path))
    ensures Absolute(path)
  {
    if !Absolute(path) {
      RelativeHasNoRoot(path);
    }
  }

  // ----- which anchor -----

  lemma {:induction false} LongerListLongerText(a: Path, b: Path)
    requires |a| < |b| && a == b[..|a|] && forall k :: 0 <= k < |b| ==> IsName(b[k])
    ensures |NamesText(a)| < |NamesText(b)|
  {
    if a == [] {
      JoinStartsWithFirst(b);
    } else if |a| == 1 {
      assert Join(b) == b[0] + "/" + Join(b[1..]);
    } else {
      LongerListLongerText(a[1..], b[1..]);
      assert Join(a) == a[0] + "/" + Join(a[1..]) && Join(b) == b[0] + "/" + Join(b[1..]);
    }
  }

  lemma DeeperRootIsLonger(a: string, b: string)
    requires Canonical(a) && Canonical(b)
    requires |Components(a)| < |Components(b)| && Components(a) == Components(b)[..|Components(a)|]
    ensures |a| < |b|
  {
    var p, q := Components(a)[1..], Components(b)[1..];
    NamedAreNames(Split(b));
    assert q == Named(Split(b));
    assert p == q[..|p|];
    LongerListLongerText(p, q);
  }

  /** Of two canonical ancestors of a path the one with the longer text is the deeper. */
  lemma OneIsAbove(longer: string, root: string, path: Path)
    requires Canonical(longer) && Canonical(root) && |root| <= |longer|
    requires Beneath(Components(longer), path) && Beneath(Components(root), path)
    ensures Beneath(Components(root), Components(longer))
  {
    hide Components, Canonical;
    if |Components(longer)| < |Components(root)| {
      DeeperRootIsLonger(longer, root);
    }
  }

  /** Inside the workspace the workspace anchor is used or none. Elsewhere some ancestor is
      selected exactly if there is one, and it is the deepest: every anchor above the path is at
      or above the selected root. */
  lemma SelectionRule(anchors: seq<string>, workspace: string, path: string)
    requires Absolute(path) && forall i :: 0 <= i < |anchors| ==> Canonical(anchors[i])
    ensures var r, names := Select(anchors, workspace, path), Components(path);
            if Beneath(Components(workspace), names) then
              if r.Some? then r.value.0 < |anchors| && Components(anchors[r.value.0]) == Components(workspace)
              else forall i :: 0 <= i < |anchors| ==> Components(anchors[i]) != Components(workspace)
            else
              && (r.None? <==> forall i :: 0 <= i < |anchors| ==> !Beneath(Components(anchors[i]), names))
              && (r.Some? ==> r.value.0 < |anchors|)
              && (r.Some? ==> forall i :: 0 <= i < |anchors| && Beneath(Components(anchors[i]), names) ==>
                    Beneath(Components(anchors[i]), Components(anchors[r.value.0])))
  {
    hide Components, Beneath, Stripped;
    var names := Components(path);
    var best := Longest(anchors, names, |anchors|);
    LongestAbove(anchors, names, |anchors|);
    WorkspaceAnchorIsFirst(anchors, workspace, 0);
    if best.Some? {
      var root := Components(anchors[best.value]);
      forall i | 0 <= i < |anchors| && Beneath(Components(anchors[i]), names)
        ensures Beneath(Components(anchors[i]), root)
      {
        OneIsAbove(anchors[best.value], anchors[i], names);
      }
    }
  }
}
