/** The command line of `run`: flags in any order and either value style, a separator, and the
    command verbatim. */
module Cli {
  import opened Wrappers

  datatype RunArgs = RunArgs(
    command: seq<string>, unattended: bool, stateDir: Option<string>,
    policyPath: Option<string>, askTimeout: Option<nat>)

  datatype UsageError =
    | UnknownFlag(token: string)
    | MissingSeparator
    | EmptyCommand
    | DuplicateFlag(flag: string)
    | MissingValue(flag: string)
    | InvalidAskTimeoutValue

  // ----- numbers -----

  predicate IsDigit(c: char) {
    '0' <= c <= '9'
  }

  /** The number these digits spell, most significant first. */
  function Decimal(digits: string): nat {
    if digits == "" || !IsDigit(digits[|digits| - 1]) then 0
    else 10 * Decimal(digits[..|digits| - 1]) + (digits[|digits| - 1] as int - '0' as int)
  }

  /** `str::parse::<u64>`: an optional plus sign, then at least one digit and nothing else. */
  function ParseU64(value: string): Option<nat> {
    var digits := if value != "" && value[0] == '+' then value[1..] else value;
    if digits == "" || exists i :: 0 <= i < |digits| && !IsDigit(digits[i]) then None
    else if Decimal(digits) > 0xffff_ffff_ffff_ffff then None
    else Some(Decimal(digits))
  }

  function ParseAskTimeout(value: string): Result<nat, UsageError> {
    match ParseU64(value)
    case Some(secs) => if 1 <= secs <= 3600 then Ok(secs) else Err(InvalidAskTimeoutValue)
    case None => Err(InvalidAskTimeoutValue)
  }

  /** The decimal spelling of a number. */
  function Spell(n: nat): string {
    var digit := ['0' + (n % 10) as char];
    if n < 10 then digit else Spell(n / 10) + digit
  }

  lemma {:induction false} SpellIsDecimal(n: nat)
    ensures Decimal(Spell(n)) == n && Spell(n) != "" && forall i :: 0 <= i < |Spell(n)| ==> IsDigit(Spell(n)[i])
  {
    if n >= 10 {
      SpellIsDecimal(n / 10);
      assert Spell(n)[..|Spell(n)| - 1] == Spell(n / 10);
    } else {
      assert Spell(n)[..0] == "";
    }
  }

  /** Every whole number of seconds in range can be passed, plainly or with a plus sign. */
  lemma TimeoutsRoundTrip(secs: nat)
    requires 1 <= secs <= 3600
    ensures ParseAskTimeout(Spell(secs)) == Ok(secs) && ParseAskTimeout("+" + Spell(secs)) == Ok(secs)
  {
    SpellIsDecimal(secs);
    assert ("+" + Spell(secs))[1..] == Spell(secs);
  }

  // ----- scanning -----

  const UNATTENDED: string := "--unattended"
  const STATE_DIR: string := "--state-dir"
  const POLICY: string := "--policy"
  const ASK_TIMEOUT: string := "--ask-timeout"
  const SEPARATOR: string := "--"

  datatype Kind = StateDir | Policy | AskTimeout

  function NameOf(k: Kind): string {
    match k case StateDir => STATE_DIR case Policy => POLICY case AskTimeout => ASK_TIMEOUT
  }

  /** What the flags have set so far. */
  datatype Options = Options(unattended: bool, stateDir: Option<string>,
      policyPath: Option<string>, askTimeout: Option<nat>) {
    predicate Has(k: Kind) {
      match k case StateDir => stateDir.Some? case Policy => policyPath.Some? case AskTimeout => askTimeout.Some?
    }

    function Set(k: Kind, value: string): Result<Options, UsageError> {
      match k
      case StateDir => Ok(this.(stateDir := Some(value)))
      case Policy => Ok(this.(policyPath := Some(value)))
      case AskTimeout =>
        match ParseAskTimeout(value)
        case Ok(secs) => Ok(this.(askTimeout := Some(secs)))
        case Err(e) => Err(e)
    }
  }

  const NONE: Options := Options(false, None, None, None)

  predicate Joins(tok: string, name: string) {
    name + "=" <= tok
  }

  /** The valued flag a token introduces, and whether the value is in the token itself. */
  function KindOf(tok: string): Option<(Kind, bool)> {
    if tok == STATE_DIR then Some((StateDir, false))
    else if Joins(tok, STATE_DIR) then Some((StateDir, true))
    else if tok == POLICY then Some((Policy, false))
    else if Joins(tok, POLICY) then Some((Policy, true))
    else if tok == ASK_TIMEOUT then Some((AskTimeout, false))
    else if Joins(tok, ASK_TIMEOUT) then Some((AskTimeout, true))
    else None
  }

  /** Flags from position `i` up to the separator: what they set, and where the separator is. */
  function Scan(rest: seq<string>, i: nat, options: Options): Result<(Options, nat), UsageError>
    decreases if i < |rest| then |rest| - i else 0
  {
    if i >= |rest| then Err(MissingSeparator)
    else
      var tok := rest[i];
      if tok == SEPARATOR then Ok((options, i))
      else if tok == UNATTENDED then
        if options.unattended then Err(DuplicateFlag(UNATTENDED)) else Scan(rest, i + 1, options.(unattended := true))
      else
        match KindOf(tok)
        case None => Err(UnknownFlag(tok))
        case Some((k, joined)) =>
          if options.Has(k) then Err(DuplicateFlag(NameOf(k)))
          else if !joined && (i + 1 >= |rest| || rest[i + 1] == SEPARATOR) then Err(MissingValue(NameOf(k)))
          else if joined && |tok| == |NameOf(k)| + 1 then Err(MissingValue(NameOf(k)))
          else
            var value := if joined then tok[|NameOf(k)| + 1..] else rest[i + 1];
            match options.Set(k, value)
            case Ok(more) => Scan(rest, i + (if joined then 1 else 2), more)
            case Err(e) => Err(e)
  }

  function Parsed(rest: seq<string>): Result<RunArgs, UsageError> {
    if SEPARATOR !in rest then Err(MissingSeparator)
    else
      match Scan(rest, 0, NONE)
      case Err(e) => Err(e)
      case Ok((o, separator)) =>
        if separator + 1 >= |rest| then Err(EmptyCommand)
        else Ok(RunArgs(rest[separator + 1..], o.unattended, o.stateDir, o.policyPath, o.askTimeout))
  }

  /** The value of the flag at `i`, from the token itself or the one after, and where to go on. */
  method TakeValue(rest: seq<string>, i: nat, name: string, joined: bool) returns (r: Result<(string, nat), UsageError>)
    requires i < |rest| && (joined ==> Joins(rest[i], name))
    ensures if joined then
              r == if |rest[i]| == |name| + 1 then Err(MissingValue(name)) else Ok((rest[i][|name| + 1..], i + 1))
            else
              r == if i + 1 >= |rest| || rest[i + 1] == SEPARATOR then Err(MissingValue(name))
                   else Ok((rest[i + 1], i + 2))
  {
    if joined {
      var value := rest[i][|name| + 1..];
      if value == "" {
        return Err(MissingValue(name));
      }
      return Ok((value, i + 1));
    }
    if i + 1 >= |rest| || rest[i + 1] == "--" {
      return Err(MissingValue(name));
    }
    r := Ok((rest[i + 1], i + 2));
  }

  /** One flag with a value: its kind, not given before, its value, stored. */
  method TakeValued(rest: seq<string>, i: nat, o: Options) returns (r: Result<(Options, nat), UsageError>)
    requires i < |rest| && rest[i] != SEPARATOR && rest[i] != UNATTENDED
    ensures r.Ok? ==> i < r.value.1 <= |rest| && Scan(rest, i, o) == Scan(rest, r.value.1, r.value.0)
    ensures r.Err? ==> Scan(rest, i, o) == Err(r.error)
  {
    hide ParseAskTimeout;
    var tok := rest[i];
    var k, joined;
    if tok == STATE_DIR || Joins(tok, STATE_DIR) {
      k, joined := StateDir, tok != STATE_DIR;
    } else if tok == POLICY || Joins(tok, POLICY) {
      k, joined := Policy, tok != POLICY;
    } else if tok == ASK_TIMEOUT || Joins(tok, ASK_TIMEOUT) {
      k, joined := AskTimeout, tok != ASK_TIMEOUT;
    } else {
      return Err(UnknownFlag(tok));
    }
    if o.Has(k) {
      return Err(DuplicateFlag(NameOf(k)));
    }
    var taken := TakeValue(rest, i, NameOf(k), joined);
    if taken.Err? {
      return Err(taken.error);
    }
    var (value, next) := taken.value;
    var more := o.Set(k, value);
    r := if more.Ok? then Ok((more.value, next)) else Err(more.error);
  }

  /** Parses the tokens after `run`. */
  method ParseRun(rest: seq<string>) returns (r: Result<RunArgs, UsageError>)
    ensures r == Parsed(rest)
  {
    if SEPARATOR !in rest {
      return Err(MissingSeparator);
    }
    var o := NONE;
    var i := 0;
    while true
      invariant i <= |rest|
      invariant Scan(rest, 0, NONE) == Scan(rest, i, o)
      decreases |rest| - i
    {
      if i >= |rest| {
        return Err(MissingSeparator);
      }
      if rest[i] == "--" {
        break;
      }
      if rest[i] == "--unattended" {
        if o.unattended {
          return Err(DuplicateFlag("--unattended"));
        }
        o := o.(unattended := true);
        i := i + 1;
      } else {
        var taken := TakeValued(rest, i, o);
        if taken.Err? {
          return Err(taken.error);
        }
        o, i := taken.value.0, taken.value.1;
      }
    }
    var command := rest[i + 1..];
    if command == [] {
      return Err(EmptyCommand);
    }
    r := Ok(RunArgs(command, o.unattended, o.stateDir, o.policyPath, o.askTimeout));
  }

  // ----- renderings -----

  datatype Style = Separate | Joined

  datatype Flag = UnattendedFlag | Valued(kind: Kind, value: string, style: Style)

  function Render(f: Flag): seq<string> {
    match f
    case UnattendedFlag => [UNATTENDED]
    case Valued(k, value, Separate) => [NameOf(k), value]
    case Valued(k, value, Joined) => [NameOf(k) + "=" + value]
  }

  function RenderAll(flags: seq<Flag>): seq<string> {
    if flags == [] then [] else Render(flags[0]) + RenderAll(flags[1..])
  }

  /** A flag that may follow others that have set `o`: not given before, its value spellable in its
      style, and a timeout in range. */
  predicate Fits(f: Flag, o: Options) {
    match f
    case UnattendedFlag => !o.unattended
    case Valued(k, value, style) =>
      && !o.Has(k) && o.Set(k, value).Ok?
      && (style == Separate ==> value != SEPARATOR) && (style == Joined ==> value != "")
  }

  function Apply(f: Flag, o: Options): Options
    requires Fits(f, o)
  {
    match f case UnattendedFlag => o.(unattended := true) case Valued(k, value, _) => o.Set(k, value).value
  }

  /** All flags fit one after the other; `ApplyAll` is what they set. */
  predicate AllFit(flags: seq<Flag>, o: Options) {
    flags != [] ==> Fits(flags[0], o) && AllFit(flags[1..], Apply(flags[0], o))
  }

  function ApplyAll(flags: seq<Flag>, o: Options): Options
    requires AllFit(flags, o)
  {
    if flags == [] then o else ApplyAll(flags[1..], Apply(flags[0], o))
  }

  lemma NamesAreDistinct(k: Kind, value: string)
    ensures NameOf(k) != SEPARATOR && NameOf(k) != UNATTENDED && KindOf(NameOf(k)) == Some((k, false))
    ensures NameOf(k) + "=" + value != SEPARATOR && NameOf(k) + "=" + value != UNATTENDED
    ensures KindOf(NameOf(k) + "=" + value) == Some((k, true))
  {
    var tok := NameOf(k) + "=" + value;
    assert tok[2] == NameOf(k)[2] && tok[|NameOf(k)|] == '=';
  }

  /** Scanning a rendered flag sets what the flag says and goes on behind it. */
  lemma ScanRendered(rest: seq<string>, i: nat, f: Flag, o: Options)
    requires Fits(f, o) && i + |Render(f)| <= |rest| && rest[i..i + |Render(f)|] == Render(f)
    ensures Scan(rest, i, o) == Scan(rest, i + |Render(f)|, Apply(f, o))
  {
    hide ParseAskTimeout, KindOf;
    assert rest[i] == Render(f)[0];
    if f.Valued? {
      NamesAreDistinct(f.kind, f.value);
      if f.style == Separate {
        assert rest[i + 1] == Render(f)[1];
      } else {
        assert rest[i][|NameOf(f.kind)| + 1..] == f.value;
      }
    }
  }

  lemma SplitSlice(rest: seq<string>, i: nat, a: seq<string>, b: seq<string>)
    requires i + |a + b| <= |rest| && rest[i..i + |a + b|] == a + b
    ensures rest[i..i + |a|] == a && rest[i + |a|..i + |a| + |b|] == b
  {
    assert rest[i..i + |a|] == rest[i..i + |a + b|][..|a|];
    assert rest[i + |a|..i + |a| + |b|] == rest[i..i + |a + b|][|a|..];
  }

  /** The flags stand at `i` and the separator right behind them. */
  ghost predicate Stands(rest: seq<string>, i: nat, flags: seq<Flag>) {
    var n := |RenderAll(flags)|;
    i + n < |rest| && rest[i..i + n] == RenderAll(flags) && rest[i + n] == SEPARATOR
  }

  lemma StandsBehindFirst(rest: seq<string>, i: nat, flags: seq<Flag>)
    requires flags != [] && Stands(rest, i, flags)
    ensures i + |Render(flags[0])| <= |rest| && rest[i..i + |Render(flags[0])|] == Render(flags[0])
    ensures Stands(rest, i + |Render(flags[0])|, flags[1..])
    ensures |RenderAll(flags)| == |Render(flags[0])| + |RenderAll(flags[1..])|
  {
    var a, b := Render(flags[0]), RenderAll(flags[1..]);
    assert RenderAll(flags) == a + b;
    hide Render, RenderAll;
    SplitSlice(rest, i, a, b);
  }

  lemma ScanStops(rest: seq<string>, i: nat, o: Options)
    requires Stands(rest, i, [])
    ensures Scan(rest, i, o) == Ok((o, i))
  {}

  lemma {:induction false} ScanRenderedAll(rest: seq<string>, i: nat, flags: seq<Flag>, o: Options)
    requires AllFit(flags, o) && Stands(rest, i, flags)
    ensures Scan(rest, i, o) == Ok((ApplyAll(flags, o), i + |RenderAll(flags)|))
    decreases |flags|
  {
    hide Scan, Render, Fits, Apply, Stands, RenderAll;
    if flags == [] {
      ScanStops(rest, i, o);
      assert |RenderAll([])| == 0 by {
        NothingRendered();
      }
    } else {
      StandsBehindFirst(rest, i, flags);
      ScanRendered(rest, i, flags[0], o);
      ScanRenderedAll(rest, i + |Render(flags[0])|, flags[1..], Apply(flags[0], o));
    }
  }

  lemma NothingRendered()
    ensures RenderAll([]) == []
  {}

  lemma OneFlagMore(f: Flag, flags: seq<Flag>, o: Options)
    requires Fits(f, o) && AllFit(flags, Apply(f, o))
    ensures RenderAll([f] + flags) == Render(f) + RenderAll(flags)
    ensures AllFit([f] + flags, o) && ApplyAll([f] + flags, o) == ApplyAll(flags, Apply(f, o))
  {
    hide Fits, Apply, Render;
    assert ([f] + flags)[1..] == flags;
  }

  /** What a successful scan read was a rendering. */
  lemma {:induction false} ScanReadsRendering(rest: seq<string>, i: nat, o: Options) returns (flags: seq<Flag>)
    requires i <= |rest| && Scan(rest, i, o).Ok?
    ensures var (set_, separator) := Scan(rest, i, o).value;
            && i <= separator < |rest| && rest[separator] == SEPARATOR
            && AllFit(flags, o) && ApplyAll(flags, o) == set_ && rest[i..separator] == RenderAll(flags)
    decreases |rest| - i
  {
    hide Scan, Fits, Apply, Render, RenderAll, AllFit, ApplyAll;
    if i < |rest| && rest[i] != SEPARATOR {
      var f, n := FlagAt(rest, i, o);
      flags := ScanReadsRendering(rest, i + n, Apply(f, o));
      OneFlagMore(f, flags, o);
      flags := [f] + flags;
      var separator := Scan(rest, i, o).value.1;
      assert rest[i..separator] == rest[i..i + n] + rest[i + n..separator];
    } else {
      flags := [];
      ScanEndsHere(rest, i, o);
    }
  }

  lemma ScanEndsHere(rest: seq<string>, i: nat, o: Options)
    requires i <= |rest| && Scan(rest, i, o).Ok? && (i == |rest| || rest[i] == SEPARATOR)
    ensures i < |rest| && Scan(rest, i, o).value == (o, i)
    ensures AllFit([], o) && ApplyAll([], o) == o && rest[i..i] == RenderAll([])
  {
    hide Fits, Apply, Render, KindOf;
  }

  /** What a scan that does not fail has checked of a token that is neither the separator nor
      `--unattended`. */
  lemma ScannedValue(rest: seq<string>, i: nat, o: Options)
    requires i < |rest| && rest[i] != SEPARATOR && rest[i] != UNATTENDED && Scan(rest, i, o).Ok?
    ensures KindOf(rest[i]).Some?
    ensures var (k, joined) := KindOf(rest[i]).value;
            && !o.Has(k)
            && if joined then Joins(rest[i], NameOf(k)) && |rest[i]| > |NameOf(k)| + 1
                              && o.Set(k, rest[i][|NameOf(k)| + 1..]).Ok?
               else rest[i] == NameOf(k) && i + 1 < |rest| && rest[i + 1] != SEPARATOR && o.Set(k, rest[i + 1]).Ok?
  {
    hide ParseAskTimeout;
  }

  /** The flag a scan that does not fail finds at `i`. */
  lemma FlagAt(rest: seq<string>, i: nat, o: Options) returns (f: Flag, n: nat)
    requires i < |rest| && rest[i] != SEPARATOR && Scan(rest, i, o).Ok?
    ensures n == |Render(f)| > 0 && i + n <= |rest| && rest[i..i + n] == Render(f) && Fits(f, o)
    ensures Scan(rest, i, o) == Scan(rest, i + n, Apply(f, o))
  {
    var tok := rest[i];
    if tok == UNATTENDED {
      f, n := UnattendedFlag, 1;
    } else {
      ScannedValue(rest, i, o);
      hide Scan, KindOf, ParseAskTimeout, NameOf;
      var (k, joined) := KindOf(tok).value;
      if joined {
        var value := tok[|NameOf(k)| + 1..];
        assert tok == NameOf(k) + "=" + value;
        f, n := Valued(k, value, Joined), 1;
      } else {
        f, n := Valued(k, rest[i + 1], Separate), 2;
      }
    }
    ScanRendered(rest, i, f, o);
  }

  /** The tokens after `run` parse to these arguments exactly when they are a rendering of flags
      that set them, in whatever order and styles, then the separator, then the command. */
  ghost predicate Renders(rest: seq<string>, flags: seq<Flag>, args: RunArgs) {
    && AllFit(flags, NONE) && args.command != []
    && rest == RenderAll(flags) + [SEPARATOR] + args.command
    && var o := ApplyAll(flags, NONE);
       args == RunArgs(args.command, o.unattended, o.stateDir, o.policyPath, o.askTimeout)
  }

  lemma RenderingsParse(rest: seq<string>, flags: seq<Flag>, args: RunArgs)
    requires Renders(rest, flags, args)
    ensures Parsed(rest) == Ok(args)
  {
    var n := |RenderAll(flags)|;
    assert rest[n] == SEPARATOR && rest[0..n] == RenderAll(flags) && rest[n + 1..] == args.command;
    ScanRenderedAll(rest, 0, flags, NONE);
  }

  lemma OnlyRenderingsParse(rest: seq<string>)
    requires Parsed(rest).Ok?
    ensures exists flags :: Renders(rest, flags, Parsed(rest).value)
  {
    hide RenderAll, AllFit, ApplyAll, Scan;
    var flags := ScanReadsRendering(rest, 0, NONE);
    var separator := Scan(rest, 0, NONE).value.1;
    assert rest == rest[0..separator] + [rest[separator]] + rest[separator + 1..];
    assert Renders(rest, flags, Parsed(rest).value);
  }

  // ----- what the flags mean -----

  /** Flags that fit one after the other set what they say, from what was set before: each kind is
      given at most once, and its value is the one stored. */
  ghost predicate SetBy(flags: seq<Flag>, before: Options, after: Options) {
    && (after.unattended <==> before.unattended || UnattendedFlag in flags)
    && (forall v :: after.stateDir == Some(v) <==> before.stateDir == Some(v) || Gives(flags, StateDir, v))
    && (forall v :: after.policyPath == Some(v) <==> before.policyPath == Some(v) || Gives(flags, Policy, v))
    && (forall secs :: after.askTimeout == Some(secs) <==>
          before.askTimeout == Some(secs) || exists v :: Gives(flags, AskTimeout, v) && ParseAskTimeout(v) == Ok(secs))
  }

  /** The flag is given with this value, in either style. */
  ghost predicate Gives(flags: seq<Flag>, k: Kind, value: string) {
    Valued(k, value, Separate) in flags || Valued(k, value, Joined) in flags
  }

  lemma GivesMore(f: Flag, flags: seq<Flag>)
    ensures forall k, v :: Gives([f] + flags, k, v) <==>
                           (f.Valued? && f.kind == k && f.value == v) || Gives(flags, k, v)
    ensures UnattendedFlag in [f] + flags <==> f.UnattendedFlag? || UnattendedFlag in flags
  {
    forall k, v
      ensures Gives([f] + flags, k, v) <==> (f.Valued? && f.kind == k && f.value == v) || Gives(flags, k, v)
    {
      var separate, joined := Valued(k, v, Separate), Valued(k, v, Joined);
      assert f.Valued? ==> f == Valued(f.kind, f.value, f.style) && (f.style == Separate || f.style == Joined);
      assert separate in [f] + flags <==> separate == f || separate in flags;
      assert joined in [f] + flags <==> joined == f || joined in flags;
    }
  }

  lemma {:induction false} FlagsSetWhatTheySay(flags: seq<Flag>, o: Options)
    requires AllFit(flags, o)
    ensures SetBy(flags, o, ApplyAll(flags, o))
  {
    hide ParseAskTimeout, Gives, Fits, Apply, SetBy;
    if flags == [] {
      NothingSet(o);
    } else {
      var f, rest := flags[0], flags[1..];
      assert flags == [f] + rest;
      FlagsSetWhatTheySay(rest, Apply(f, o));
      SetOneMore(f, rest, o, ApplyAll(rest, Apply(f, o)));
    }
  }

  lemma SetOneMore(f: Flag, flags: seq<Flag>, o: Options, after: Options)
    requires Fits(f, o) && SetBy(flags, Apply(f, o), after)
    ensures SetBy([f] + flags, o, after)
  {
    hide ParseAskTimeout, Gives;
    GivesMore(f, flags);
  }

  lemma NothingSet(o: Options)
    ensures SetBy([], o, o)
  {
    hide ParseAskTimeout, Gives;
    NothingGiven();
  }

  lemma NothingGiven()
    ensures forall k, v :: !Gives([], k, v)
  {}

  /** The arguments of any successful parse, read off the flags: attendance by its flag, and each
      value the one given; a spelled number of seconds is that number. */
  lemma ArgumentsAreAsGiven(rest: seq<string>, flags: seq<Flag>, args: RunArgs)
    requires Renders(rest, flags, args)
    ensures Parsed(rest) == Ok(args)
    ensures args.unattended <==> UnattendedFlag in flags
    ensures forall v :: args.stateDir == Some(v) <==> Gives(flags, StateDir, v)
    ensures forall v :: args.policyPath == Some(v) <==> Gives(flags, Policy, v)
    ensures forall secs :: 1 <= secs <= 3600 && Gives(flags, AskTimeout, Spell(secs)) ==> args.askTimeout == Some(secs)
    ensures args.askTimeout.Some? <==> exists v :: Gives(flags, AskTimeout, v)
  {
    hide Gives, ParseAskTimeout, Spell;
    RenderingsParse(rest, flags, args);
    FlagsSetWhatTheySay(flags, NONE);
    forall secs | 1 <= secs <= 3600 && Gives(flags, AskTimeout, Spell(secs)) ensures args.askTimeout == Some(secs) {
      TimeoutsRoundTrip(secs);
    }
    forall v | Gives(flags, AskTimeout, v) ensures args.askTimeout.Some? {
      GivenFits(flags, NONE, v);
    }
  }

  /** A timeout that was accepted is a number in range. */
  lemma {:induction false} GivenFits(flags: seq<Flag>, o: Options, v: string)
    requires AllFit(flags, o) && Gives(flags, AskTimeout, v)
    ensures exists secs :: ParseAskTimeout(v) == Ok(secs)
  {
    hide ParseAskTimeout;
    if !(flags[0].Valued? && flags[0].kind == AskTimeout && flags[0].value == v) {
      GivenFits(flags[1..], Apply(flags[0], o), v);
    }
  }

  // ----- empty paths -----

  /** The documentation says an empty path value is refused; whatever came before, the parser refuses
      it only when it is joined to its flag. */
  lemma EmptyPathsPassWhenSeparate(k: Kind, style: Style, o: Options)
    ensures Fits(Valued(k, "", style), o) <==> !o.Has(k) && style == Separate && k != AskTimeout
  {}

  function PathOf(o: Options, k: Kind): Option<string> {
    match k case StateDir => o.stateDir case Policy => o.policyPath case AskTimeout => None
  }

  /** The flag stands at `j`, separate from an empty value. */
  predicate EmptyAt(rest: seq<string>, k: Kind, j: nat) {
    j + 1 < |rest| && rest[j] == NameOf(k) && rest[j + 1] == ""
  }

  /** What one more flag does to the path, and what of it is an empty path. */
  lemma PathAfterFlag(f: Flag, o: Options, k: Kind)
    requires k != AskTimeout && Fits(f, o)
    ensures var path := PathOf(Apply(f, o), k);
            if f.Valued? && f.kind == k then PathOf(o, k) == None && path == Some(f.value)
            else path == PathOf(o, k)
    ensures Render(f)[0] == NameOf(k) <==> f.Valued? && f.kind == k && f.style == Separate
    ensures Render(f)[0] != "" && Render(f)[0] != SEPARATOR
    ensures f.Valued? && f.kind == k && f.value == "" ==> f.style == Separate
  {
    hide ParseAskTimeout;
    NamesAreDistinct(k, "");
    if f.Valued? {
      NamesAreDistinct(f.kind, f.value);
    }
  }

  lemma {:induction false} ScanFindsEmpty(rest: seq<string>, i: nat, o: Options, k: Kind)
    requires i <= |rest| && Scan(rest, i, o).Ok? && k != AskTimeout
    ensures var (set_, separator) := Scan(rest, i, o).value;
            && i <= separator < |rest|
            && (PathOf(set_, k) == Some("") <==>
                PathOf(o, k) == Some("") || exists j: nat :: i <= j && j + 1 < separator && EmptyAt(rest, k, j))
    decreases |rest| - i
  {
    hide KindOf, Fits, Apply, Render, NameOf, PathOf, ParseAskTimeout;
    if i < |rest| && rest[i] != SEPARATOR {
      hide Scan;
      var f, n := FlagAt(rest, i, o);
      ScanFindsEmpty(rest, i + n, Apply(f, o), k);
      PathAfterFlag(f, o, k);
      EmptyIsAtFlag(rest, i, o, f, n, k);
    }
  }

  /** Of the tokens of one flag, only its name can be followed by an empty path. */
  lemma EmptyIsAtFlag(rest: seq<string>, i: nat, o: Options, f: Flag, n: nat, k: Kind)
    requires k != AskTimeout && Fits(f, o)
    requires n == |Render(f)| > 0 && i + n <= |rest| && rest[i..i + n] == Render(f)
    requires Scan(rest, i + n, Apply(f, o)).Ok?
    ensures EmptyAt(rest, k, i) <==> f.Valued? && f.kind == k && f.value == ""
    ensures EmptyAt(rest, k, i) ==> n == 2
    ensures forall j :: i < j < i + n ==> !EmptyAt(rest, k, j)
  {
    hide KindOf, Fits, Apply, NameOf, ParseAskTimeout;
    PathAfterFlag(f, o, k);
    assert rest[i] == Render(f)[0];
    if n == 2 {
      assert rest[i + 1] == Render(f)[1];
      if EmptyAt(rest, k, i + 1) {
        var next, _ := FlagAt(rest, i + 2, Apply(f, o));
        PathAfterFlag(next, Apply(f, o), k);
      }
    }
  }

  /** So a successful parse has an empty policy path, or state directory, exactly when the flag
      stands before the first separator with an empty token behind it. */
  lemma EmptyPathExactlyWhenSeparate(rest: seq<string>)
    requires Parsed(rest).Ok?
    ensures exists separator: nat ::
              && separator < |rest| && rest[separator] == SEPARATOR && SEPARATOR !in rest[..separator]
              && (Parsed(rest).value.policyPath == Some("") <==>
                  exists j: nat :: j + 1 < separator && EmptyAt(rest, Policy, j))
              && (Parsed(rest).value.stateDir == Some("") <==>
                  exists j: nat :: j + 1 < separator && EmptyAt(rest, StateDir, j))
  {
    hide Scan, EmptyAt;
    FirstSeparator(rest, 0, NONE);
    ScanFindsEmpty(rest, 0, NONE, Policy);
    ScanFindsEmpty(rest, 0, NONE, StateDir);
    var (o, separator) := Scan(rest, 0, NONE).value;
    assert PathOf(o, Policy) == Some("") <==> exists j: nat :: j + 1 < separator && EmptyAt(rest, Policy, j);
    assert PathOf(o, StateDir) == Some("") <==> exists j: nat :: j + 1 < separator && EmptyAt(rest, StateDir, j);
  }

  // ----- the first separator -----

  /** On success the command is exactly what follows the first separator. */
  lemma CommandFollowsFirstSeparator(rest: seq<string>)
    requires Parsed(rest).Ok?
    ensures exists i :: 0 <= i < |rest| && rest[i] == SEPARATOR && SEPARATOR !in rest[..i]
                        && Parsed(rest).value.command == rest[i + 1..]
  {
    FirstSeparator(rest, 0, NONE);
  }

  lemma {:induction false} FirstSeparator(rest: seq<string>, i: nat, o: Options)
    requires Scan(rest, i, o).Ok? && i <= |rest| && SEPARATOR !in rest[..i]
    ensures var separator := Scan(rest, i, o).value.1;
            separator < |rest| && rest[separator] == SEPARATOR && SEPARATOR !in rest[..separator]
    decreases if i < |rest| then |rest| - i else 0
  {
    hide ParseAskTimeout;
    if rest[i] != SEPARATOR {
      hide Scan, Fits, Apply;
      var f, n := FlagAt(rest, i, o);
      assert rest[..i + n] == rest[..i] + rest[i..i + n];
      RenderedHoldsNoSeparator(f, o);
      FirstSeparator(rest, i + n, Apply(f, o));
    }
  }

  lemma RenderedHoldsNoSeparator(f: Flag, o: Options)
    requires Fits(f, o)
    ensures SEPARATOR !in Render(f)
  {
    if f.Valued? {
      NamesAreDistinct(f.kind, f.value);
    }
  }

  /** After the separator check at the start, the end of the tokens is never reached: no flag can
      step over the separator. */
  lemma {:induction false} EndIsNeverReached(rest: seq<string>, i: nat, o: Options)
    requires i <= |rest| && SEPARATOR in rest[i..]
    ensures Scan(rest, i, o) != Err(MissingSeparator)
    decreases |rest| - i
  {
    hide KindOf, ParseU64;
    var tok := rest[i];
    if tok == UNATTENDED {
      Later(rest, i);
      if !o.unattended {
        EndIsNeverReached(rest, i + 1, o.(unattended := true));
      }
    } else if tok != SEPARATOR && KindOf(tok).Some? {
      var (k, joined) := KindOf(tok).value;
      Later(rest, i);
      if joined {
        JoinedHoldsName(tok);
        var more := o.Set(k, if |tok| > |NameOf(k)| then tok[|NameOf(k)| + 1..] else "");
        if more.Ok? {
          EndIsNeverReached(rest, i + 1, more.value);
        }
      } else if i + 1 < |rest| && rest[i + 1] != SEPARATOR {
        Later(rest, i + 1);
        var more := o.Set(k, rest[i + 1]);
        if more.Ok? {
          EndIsNeverReached(rest, i + 2, more.value);
        }
      }
    }
  }

  lemma JoinedHoldsName(tok: string)
    requires KindOf(tok).Some? && KindOf(tok).value.1
    ensures Joins(tok, NameOf(KindOf(tok).value.0))
  {}

  lemma Later(rest: seq<string>, i: nat)
    requires i < |rest| && rest[i] != SEPARATOR && SEPARATOR in rest[i..]
    ensures SEPARATOR in rest[i + 1..]
  {
    assert rest[i..] == [rest[i]] + rest[i + 1..];
  }
}
