/** The kernel as the loop sees it: every answer is the adversary's, every question is noted. */
module Kernel {
  import opened Wrappers
  import opened Invocations
  import opened Protocol

  /** `process_in_tree`: walks parents from `target`, at most 256 of them. On a process table that
      holds still it finds exactly the descendants of `root` within reach of live parents. */
  method ProcessInTree(parentOf: nat -> Option<nat>, root: nat, target: nat) returns (r: Option<bool>)
    ensures r == Some(true) <==>
            exists k :: 0 <= k < 256 && LivelyUpTo(parentOf, target, k) && Ancestor(parentOf, target, k) == Some(root)
                        && forall j :: 0 <= j < k ==> Ancestor(parentOf, target, j) != Some(root)
    ensures r == None ==>
              exists k :: 0 < k <= 256 && LivelyUpTo(parentOf, target, k - 1) && Ancestor(parentOf, target, k).None?
  {
    var current := target;
    for i := 0 to 256
      invariant Ancestor(parentOf, target, i) == Some(current)
      invariant LivelyUpTo(parentOf, target, i)
      invariant forall j :: 0 <= j < i ==> Ancestor(parentOf, target, j) != Some(root)
    {
      if current == root {
        return Some(true);
      }
      if current <= 1 {
        assert forall k :: i < k ==> !LivelyUpTo(parentOf, target, k);
        return Some(false);
      }
      var parent := parentOf(current);
      if parent.None? {
        assert Ancestor(parentOf, target, i + 1).None?;
        NoAncestorsBeyond(parentOf, target, i + 1);
        return None;
      }
      current := parent.value;
    }
    r := Some(false);
  }

  /** The `k`-th parent of `pid`. */
  function Ancestor(parentOf: nat -> Option<nat>, pid: nat, k: nat): Option<nat> {
    if k == 0 then Some(pid)
    else match Ancestor(parentOf, pid, k - 1) case Some(p) => parentOf(p) case None => None
  }

  /** No process before the `k`-th parent is init or the kernel. */
  ghost predicate LivelyUpTo(parentOf: nat -> Option<nat>, pid: nat, k: nat) {
    forall j :: 0 <= j < k ==> Ancestor(parentOf, pid, j).Some? && Ancestor(parentOf, pid, j).value > 1
  }

  lemma NoAncestorsBeyond(parentOf: nat -> Option<nat>, pid: nat, k: nat)
    requires Ancestor(parentOf, pid, k).None?
    ensures forall j :: k <= j ==> Ancestor(parentOf, pid, j).None?
  {
    forall j | k <= j ensures Ancestor(parentOf, pid, j).None? {
      var i := k;
      while i < j
        invariant k <= i <= j && Ancestor(parentOf, pid, i).None?
      {
        i := i + 1;
      }
    }
  }

  /** The notify fd and the /proc reads behind the facts. */
  class Notifier {
    ghost const journal: Journal

    constructor (ghost journal: Journal)
      ensures this.journal == journal
    {
      this.journal := journal;
    }

    /** Whether the notification is still alive; the query itself may fail. */
    method IdValid(id: nat) returns (r: Option<bool>)
      requires journal.Valid()
      modifies journal
      ensures journal.Noted(Validity(id, r))
    {
      r := *;
      journal.Note(Validity(id, r));
    }

    /** A nul-terminated string of child memory, bounded. */
    method ReadPath(pid: nat, addr: nat) returns (r: Option<string>)
      requires journal.Valid()
      modifies journal
      ensures journal.Noted(PathRead(pid, addr, r))
    {
      r := *;
      journal.Note(PathRead(pid, addr, r));
    }

    /** The link of the caller's working directory or of one of its descriptors. */
    method DirPrefix(pid: nat, anchor: DirAnchor) returns (r: Option<string>)
      requires journal.Valid()
      modifies journal
      ensures journal.Noted(AnchorRead(pid, anchor, r))
    {
      r := *;
      journal.Note(AnchorRead(pid, anchor, r));
    }

    /** Exactly `len` bytes of child memory, or none. */
    method ReadBytes(pid: nat, addr: nat, len: nat) returns (r: Option<seq<Octet>>)
      requires journal.Valid() && len <= ABSOLUTE_READ_CAP
      modifies journal
      ensures r.Some? ==> |r.value| == len
      ensures journal.Noted(BytesRead(pid, addr, len, r))
    {
      r := *;
      if r.Some? && |r.value| != len {
        r := None;
      }
      journal.Note(BytesRead(pid, addr, len, r));
    }

    method ReadWord(pid: nat, addr: nat) returns (r: Option<nat>)
      requires journal.Valid()
      modifies journal
      ensures journal.Noted(WordRead(pid, addr, r))
    {
      r := *;
      journal.Note(WordRead(pid, addr, r));
    }

    /** Walks the process table of the moment. */
    method InTree(root: nat, target: nat) returns (r: Option<bool>)
      requires journal.Valid()
      modifies journal
      ensures journal.Noted(TreeWalked(root, target, r))
    {
      r := *;
      journal.Note(TreeWalked(root, target, r));
    }

    /** Duplicates a descriptor of the trapped process; the errno if that fails. */
    method DuplicateFd(pid: nat, fd: nat) returns (r: Option<nat>)
      requires journal.Valid()
      modifies journal
      ensures journal.Noted(Duplicated(pid, fd, r))
    {
      r := *;
      journal.Note(Duplicated(pid, fd, r));
    }

    /** Answers the notification. */
    method Send(id: nat, response: Response) returns (d: Delivery)
      requires journal.Valid()
      modifies journal
      ensures journal.Noted(Sent(id, response, d))
    {
      d := *;
      journal.Note(Sent(id, response, d));
    }
  }
}
