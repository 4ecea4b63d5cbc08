/** The confined broker: the process that pins operands under tokens and commits approved
    effects, and the supervisor's client of it. */
module Broker {
  import opened Wrappers
  import opened Invocations
  import opened Protocol
  import opened Text
  import A = Anchors
  import Bits
  import S = Sockaddr

  const U64_MAX: nat := 0xffff_ffff_ffff_ffff

  const ENOENT: nat := 2
  const EBADF: nat := 9
  const EXDEV: nat := 18
  const EINVAL: nat := 22
  const EAFNOSUPPORT: nat := 97
  const O_TMPFILE: nat := 0x41_0000

  // ----- tokens -----

  /** The counter after `token`: it wraps past the largest u64 back to 1. */
  function NextToken(token: nat): nat {
    if token >= U64_MAX then 1 else token + 1
  }

  /** The counter `k` issues after `token`. */
  function Later(token: nat, k: nat): nat {
    if k == 0 then token else NextToken(Later(token, k - 1))
  }

  lemma {:induction false} LaterCycles(token: nat, k: nat)
    requires 1 <= token <= U64_MAX
    ensures Later(token, k) == (token - 1 + k) % U64_MAX + 1
  {
    if k > 0 {
      LaterCycles(token, k - 1);
      Successor(token - 1 + k - 1);
    }
  }

  lemma Successor(x: nat)
    ensures (x + 1) % U64_MAX == if x % U64_MAX == U64_MAX - 1 then 0 else x % U64_MAX + 1
  {}

  /** A token comes up again only after all others: for fewer issues than there are tokens the
      counter never meets one it has already given out. */
  lemma TokenComesBackLate(token: nat, k: nat)
    requires 1 <= token <= U64_MAX && 0 < k < U64_MAX
    ensures Later(token, k) != token
  {
    LaterCycles(token, k);
    if token - 1 + k < U64_MAX {
    } else {
      assert (token - 1 + k) % U64_MAX == token - 1 + k - U64_MAX;
    }
  }

  // ----- the broker process -----

  /** What the filesystem answers while a path is resolved beneath an anchor. */
  datatype Resolution = Resolution(target: Option<nat>, parent: Option<nat>, identity: Option<string>)

  /** The replies on the wire; a broker that dies replies nothing. */
  datatype PrepareReply = PreparedReply(token: nat, identity: string, existing: bool)
    | ErrnoReply(errno: nat) | BrokerDied

  class BrokerState {
    const anchors: seq<string>
    var held: map<nat, Operand>
    var nextToken: nat
    /** Issues since nothing was held. */
    ghost var window: nat

    /** Every held token was issued within the window. */
    ghost predicate Valid()
      reads this
    {
      && 1 <= nextToken <= U64_MAX
      && forall t :: t in held ==> 1 <= t <= U64_MAX && exists k :: 0 < k <= window && Later(t, k) == nextToken
    }

    constructor (anchors: seq<string>)
      ensures Valid() && held == map[] && window == 0 && this.anchors == anchors
    {
      this.anchors := anchors;
      held, nextToken, window := map[], 1, 0;
    }

    /** Resolves and pins one path; the identity it reports lies beneath the anchor. */
    method PreparePath(anchor: nat, relative: string, follow: bool, allowMissing: bool) returns (r: PrepareReply)
      requires Valid()
      modifies this
      ensures Valid()
      ensures !r.PreparedReply? ==> held == old(held) && window == old(window)
      ensures r.PreparedReply? ==>
                && window == (if old(held) == map[] then 0 else old(window)) + 1
                && held == old(held)[r.token := Operand(r.identity, r.existing)]
                && (old(window) < U64_MAX ==> r.token !in old(held))
                && anchor < |anchors| && Beneath(Components(anchors[anchor]), Components(r.identity))
                && (!r.existing ==> allowMissing)
    {
      if anchor >= |anchors| {
        return ErrnoReply(EACCES);
      }
      if '\0' in relative {
        return ErrnoReply(EINVAL);
      }
      var resolution: Resolution := *;
      var existing := !resolution.target.Some?;
      if !existing && !(resolution.target.value == ENOENT && allowMissing) {
        return ErrnoReply(resolution.target.value);
      }
      if relative != "" && resolution.parent.Some? {
        return ErrnoReply(resolution.parent.value);
      }
      if !resolution.identity.Some? || (relative == "" && !existing) {
        return BrokerDied;
      }
      var identity := resolution.identity.value;
      if !Beneath(Components(anchors[anchor]), Components(identity)) {
        return ErrnoReply(EXDEV);
      }
      if window < U64_MAX {
        FreshToken();
      }
      var token := nextToken;
      Issue(Operand(identity, existing));
      r := PreparedReply(token, identity, existing);
    }

    /** Hands out the next token. */
    method Issue(operand: Operand)
      requires Valid()
      modifies this
      ensures Valid() && held == old(held)[old(nextToken) := operand]
      ensures window == (if old(held) == map[] then 0 else old(window)) + 1
    {
      var token := nextToken;
      forall t | t in held ensures exists k :: 0 < k <= window + 1 && Later(t, k) == NextToken(token) {
        var k :| 0 < k <= window && Later(t, k) == token;
        assert Later(t, k + 1) == NextToken(token);
      }
      assert Later(token, 1) == NextToken(Later(token, 0));
      window := (if held == map[] then 0 else window) + 1;
      nextToken := NextToken(token);
      held := held[token := operand];
    }

    /** The counter stands at a token nobody holds. */
    ghost method FreshToken()
      requires Valid() && window < U64_MAX
      ensures nextToken !in held
    {
      if nextToken in held {
        var k :| 0 < k <= window && Later(nextToken, k) == nextToken;
        TokenComesBackLate(nextToken, k);
      }
    }

    method Release(token: nat)
      requires Valid()
      modifies this`held
      ensures Valid() && held == old(held) - {token}
    {
      held := held - {token};
    }

    /** Consumes the token whatever comes of the open. */
    method CommitOpen(token: nat, flags: nat, mode: nat) returns (r: BrokerResult)
      requires Valid()
      modifies this`held
      ensures Valid() && held == old(held) - {token}
      ensures token !in old(held) ==> r == Errno(EBADF)
      ensures token in old(held) && Bits.And(flags, O_TMPFILE) == O_TMPFILE ==> r == Errno(EOPNOTSUPP)
      ensures !r.Value?
    {
      if token !in held {
        assert held - {token} == held;
        return Errno(EBADF);
      }
      held := held - {token};
      if Bits.And(flags, O_TMPFILE) == O_TMPFILE {
        return Errno(EOPNOTSUPP);
      }
      var errno: Option<nat> := *;
      r := if errno.Some? then Errno(errno.value) else Fd;
    }

    /** Consumes the operands whatever comes of the mutation. */
    method CommitMutation(primary: nat, secondary: Option<nat>, mutation: Mutation) returns (r: BrokerResult)
      requires Valid()
      modifies this`held
      ensures Valid()
      ensures primary in old(held) && secondary.None? ==> held == old(held) - {primary}
      ensures primary in old(held) && secondary.Some? ==> held == old(held) - {primary, secondary.value}
      ensures primary !in old(held) ==> r == Errno(EBADF) && held == old(held)
      ensures secondary.Some? && secondary.value !in old(held) - {primary} ==> r == Errno(EBADF)
      ensures primary in old(held) && secondary.None? && (mutation.Rename? || mutation.Link?) ==> r == Errno(EINVAL)
      ensures !r.Fd?
    {
      if primary !in held {
        return Errno(EBADF);
      }
      held := held - {primary};
      if secondary.Some? {
        if secondary.value !in held {
          assert held == old(held) - {primary, secondary.value};
          return Errno(EBADF);
        }
        held := held - {secondary.value};
        assert held == old(held) - {primary, secondary.value};
      } else if mutation.Rename? || mutation.Link? {
        return Errno(EINVAL);
      }
      var errno: Option<nat>, value: int := *, *;
      r := if errno.Some? then Errno(errno.value) else Value(value);
    }

    method Transmit(operation: NetworkOperation, passed: bool, address: seq<Octet>, payload: seq<Octet>, flags: nat)
      returns (r: BrokerResult)
      ensures !r.Fd?
      ensures !passed ==> r == Errno(EBADF)
      ensures passed && !(2 <= |address| <= 128) ==> r == Errno(EINVAL)
      ensures passed && 2 <= |address| <= 128 && LittleEndian(address[..2]) != 2 && LittleEndian(address[..2]) != 10 ==>
                r == Errno(EAFNOSUPPORT)
    {
      if !passed {
        return Errno(EBADF);
      }
      if |address| < 2 || |address| > SOCKADDR_CAP {
        return Errno(EINVAL);
      }
      if LittleEndian(address[..2]) !in {S.AF_INET, S.AF_INET6} {
        return Errno(EAFNOSUPPORT);
      }
      var errno: Option<nat>, value: int := *, *;
      r := if errno.Some? then Errno(errno.value) else Value(value);
    }
  }

  // ----- the client -----

  /** One anchor is above both paths. */
  ghost predicate ShareAnchor(anchors: seq<string>, path: string, identity: string) {
    exists i :: 0 <= i < |anchors| && Beneath(Components(anchors[i]), Components(path))
                && Beneath(Components(anchors[i]), Components(identity))
  }

  /** The supervisor's end: any exchange may be lost, and then the broker's state is unknown and
      the run aborts. */
  class Client {
    const workspace: string
    const state: BrokerState
    ghost const journal: Journal

    constructor (workspace: string, state: BrokerState, ghost journal: Journal)
      ensures this.workspace == workspace && this.state == state && this.journal == journal
    {
      this.workspace, this.state, this.journal := workspace, state, journal;
    }

    ghost predicate Ready()
      reads this, state, journal
    {
      && journal.Valid() && state.Valid()
      && forall i :: 0 <= i < |state.anchors| ==> Absolute(state.anchors[i])
    }

    method PreparePath(path: string, follow: bool, allowMissing: bool) returns (r: PrepareAnswer)
      requires Ready()
      modifies state, journal
      ensures Ready()
      ensures journal.Noted(Prepared(path, follow, allowMissing, r))
      ensures r.Unpinned? ==> state.held == old(state.held) && state.window == old(state.window)
      ensures r.Pinned? ==>
                && state.window == (if old(state.held) == map[] then 0 else old(state.window)) + 1
                && state.held == old(state.held)[r.token := r.operand]
                && (old(state.window) < U64_MAX ==> r.token !in old(state.held))
                && Absolute(r.operand.identity) && (!r.operand.exists_ ==> allowMissing)
                && ShareAnchor(state.anchors, path, r.operand.identity)
    {
      hide A.Select, A.IsStretch, A.Unnamed, Components, Text.Split, Later, Step, Watch, Landed;
      var selected := A.Select(state.anchors, workspace, path);
      if selected.None? {
        r := Unpinned(EACCES);
        journal.Note(Prepared(path, follow, allowMissing, r));
        return;
      }
      A.RootPlusRelativeIsPath(state.anchors, workspace, path);
      var (anchor, relative) := selected.value;
      var lost: bool := *;
      if lost {
        r := PrepareLost;
        journal.Note(Prepared(path, follow, allowMissing, r));
        return;
      }
      var reply := state.PreparePath(anchor, relative, follow, allowMissing);
      lost := *;
      match reply {
        case PreparedReply(token, identity, existing) =>
          A.BeneathAbsolute(state.anchors[anchor], identity);
          r := Pinned(token, Operand(identity, existing));
        case ErrnoReply(errno) => r := Unpinned(errno);
        case BrokerDied => r := PrepareLost;
      }
      if lost {
        r := PrepareLost;
      }
      journal.Note(Prepared(path, follow, allowMissing, r));
    }

    method Release(token: nat) returns (done: bool)
      requires Ready()
      modifies state`held, journal
      ensures Ready() && (done ==> state.held == old(state.held) - {token})
      ensures journal.Noted(Released(token, done))
    {
      done := *;
      if done {
        state.Release(token);
      }
      journal.Note(Released(token, done));
    }

    method CommitOpen(token: nat, flags: nat, mode: nat) returns (r: Option<BrokerResult>)
      requires Ready()
      modifies state`held, journal
      ensures Ready() && (r.Some? ==> state.held == old(state.held) - {token} && !r.value.Value?)
      ensures journal.Noted(OpenCommitted(token, flags, mode, r))
    {
      var result := state.CommitOpen(token, flags, mode);
      var lost: bool := *;
      r := if lost then None else Some(result);
      journal.Note(OpenCommitted(token, flags, mode, r));
    }

    method CommitMutation(primary: nat, secondary: Option<nat>, mutation: Mutation) returns (r: Option<BrokerResult>)
      requires Ready()
      modifies state`held, journal
      ensures Ready()
      ensures r.Some? && primary in old(state.held) ==>
                !r.value.Fd?
                && state.held == old(state.held) - ({primary} + if secondary.Some? then {secondary.value} else {})
      ensures r.Some? && primary !in old(state.held) ==> r.value == Errno(EBADF) && state.held == old(state.held)
      ensures journal.Noted(MutationCommitted(primary, secondary, mutation, r))
    {
      hide Later, Step, Watch, Landed, Components, Text.Split;
      var result := state.CommitMutation(primary, secondary, mutation);
      var lost: bool := *;
      r := if lost then None else Some(result);
      journal.Note(MutationCommitted(primary, secondary, mutation, r));
    }

    method Transmit(operation: NetworkOperation, address: seq<Octet>, payload: seq<Octet>, flags: nat)
      returns (r: Option<BrokerResult>)
      requires Ready()
      modifies journal
      ensures Ready() && (r.Some? ==> !r.value.Fd?)
      ensures journal.Noted(Transmitted(operation, address, payload, flags, r))
    {
      var result := state.Transmit(operation, true, address, payload, flags);
      var lost: bool := *;
      r := if lost then None else Some(result);
      journal.Note(Transmitted(operation, address, payload, flags, r));
    }
  }
}
