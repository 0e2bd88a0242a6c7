/** Every accepted spelling of an option list is read back as that list, and nothing else is accepted. */
module OptionSpellings {
  import opened Wrappers
  import opened Text
  import opened OptionParser

  // ---------------------------------------------------------------------------------------------
  // Reading a list piece by piece
  // ---------------------------------------------------------------------------------------------

  function Flatten<T>(pieces: seq<seq<T>>): seq<T> {
    if pieces == [] then [] else pieces[0] + Flatten(pieces[1..])
  }

  lemma {:induction false} FlattenKeeps<T>(pieces: seq<seq<T>>, p: T -> bool)
    requires forall k :: 0 <= k < |pieces| ==> forall c :: c in pieces[k] ==> p(c)
    ensures forall c :: c in Flatten(pieces) ==> p(c)
  {
    if pieces == [] {
    } else {
      FlattenKeeps(pieces[1..], p);
    }
  }

  predicate StandsAt(args: seq<string>, idx: nat, piece: seq<string>) {
    idx + |piece| <= |args| && args[idx..idx + |piece|] == piece
  }

  lemma {:induction false} StandsAtOnes(args: seq<string>, idx: nat)
    ensures idx < |args| ==> StandsAt(args, idx, [args[idx]])
    ensures idx + 1 < |args| ==> StandsAt(args, idx, [args[idx], args[idx + 1]])
  {
  }

  /** The pieces stand one after the other from `idx` on. */
  predicate LaidAt(args: seq<string>, idx: nat, pieces: seq<seq<string>>)
    decreases pieces
  {
    if pieces == [] then idx <= |args|
    else StandsAt(args, idx, pieces[0]) && LaidAt(args, idx + |pieces[0]|, pieces[1..])
  }

  lemma {:induction false} LaidAtIff(args: seq<string>, idx: nat, pieces: seq<seq<string>>)
    requires idx <= |args|
    ensures LaidAt(args, idx, pieces) <==> Flatten(pieces) <= args[idx..]
    decreases pieces
  {
    if pieces == [] {
    } else {
      var n := idx + |pieces[0]|;
      PrefixOfTwo(args[idx..], pieces[0], Flatten(pieces[1..]));
      if n <= |args| {
        assert args[idx..][..|pieces[0]|] == args[idx..n] && args[idx..][|pieces[0]|..] == args[n..];
        LaidAtIff(args, n, pieces[1..]);
      }
    }
  }

  lemma {:induction false} PrefixOfTwo(s: seq<string>, a: seq<string>, b: seq<string>)
    ensures a + b <= s <==> |a| <= |s| && s[..|a|] == a && b <= s[|a|..]
  {
    if |a| <= |s| {
      assert s == s[..|a|] + s[|a|..];
      assert a + b <= s ==> s[..|a|] == (a + b)[..|a|] && s[|a|..|a + b|] == (a + b)[|a|..];
    }
  }

  // ---------------------------------------------------------------------------------------------
  // Spellings
  // ---------------------------------------------------------------------------------------------

  /** How a user may write options: a cluster of flags `-abc`, one that ends in an option with its argument
      attached `-abXVAL` or following `-abX VAL`, a long flag (a value after `=` is ignored), a long option
      `--name=VAL` or `--name VAL`.  A long name may be an unambiguous prefix. */
  datatype Spelling =
    | Flags(flags: string)
    | Attached(flags: string, c: char, val: string)
    | Separate(flags: string, c: char, val: string)
    | LongFlag(name: string, ignored: Option<string>)
    | LongInline(name: string, val: string)
    | LongSeparate(name: string, val: string)

  predicate IsFlag(specs: seq<OptSpec>, c: char) {
    FindShort(specs, c).Some? && !FindShort(specs, c).value.arg
  }

  predicate TakesArg(specs: seq<OptSpec>, c: char) {
    FindShort(specs, c).Some? && FindShort(specs, c).value.arg
  }

  predicate AreFlags(specs: seq<OptSpec>, flags: string) {
    forall k :: 0 <= k < |flags| ==> IsFlag(specs, flags[k])
  }

  predicate LongOk(specs: seq<OptSpec>, name: string, arg: bool) {
    '=' !in name && FindLong(specs, name).Found? && FindLong(specs, name).spec.arg == arg
  }

  predicate Accepted(specs: seq<OptSpec>, sp: Spelling) {
    match sp
    case Flags(flags) => flags != "" && flags[0] != '-' && AreFlags(specs, flags)
    case Attached(flags, c, val) => AreFlags(specs, flags) && TakesArg(specs, c) && (flags + [c])[0] != '-' && val != ""
    case Separate(flags, c, _) => AreFlags(specs, flags) && TakesArg(specs, c) && (flags + [c])[0] != '-'
    case LongFlag(name, ignored) => LongOk(specs, name, false) && (name != "" || ignored.Some?)
    case LongInline(name, _) => LongOk(specs, name, true)
    case LongSeparate(name, _) => LongOk(specs, name, true) && name != ""
  }

  predicate AllAccepted(specs: seq<OptSpec>, sps: seq<Spelling>) {
    forall k :: 0 <= k < |sps| ==> Accepted(specs, sps[k])
  }

  /** The command-line arguments of a spelling. */
  function Arguments(sp: Spelling): seq<string> {
    match sp
    case Flags(flags) => ["-" + flags]
    case Attached(flags, c, val) => ["-" + (flags + ([c] + val))]
    case Separate(flags, c, val) => ["-" + (flags + [c]), val]
    case LongFlag(name, None) => ["--" + name]
    case LongFlag(name, Some(v)) => ["--" + (name + "=" + v)]
    case LongInline(name, val) => ["--" + (name + "=" + val)]
    case LongSeparate(name, val) => ["--" + name, val]
  }

  function FlagCommands(flags: string): seq<Command> {
    if flags == "" then [] else [Opt(flags[0], None)] + FlagCommands(flags[1..])
  }

  /** The options a spelling stands for, in order. */
  function Meaning(specs: seq<OptSpec>, sp: Spelling): seq<Command>
    requires Accepted(specs, sp)
  {
    match sp
    case Flags(flags) => FlagCommands(flags)
    case Attached(flags, c, val) => FlagCommands(flags) + [Opt(c, Some(val))]
    case Separate(flags, c, val) => FlagCommands(flags) + [Opt(c, Some(val))]
    case LongFlag(name, _) => [Opt(FindLong(specs, name).spec.short, None)]
    case LongInline(name, val) => [Opt(FindLong(specs, name).spec.short, Some(val))]
    case LongSeparate(name, val) => [Opt(FindLong(specs, name).spec.short, Some(val))]
  }

  function Words(sps: seq<Spelling>): seq<seq<string>> {
    seq(|sps|, k requires 0 <= k < |sps| => Arguments(sps[k]))
  }

  function Meanings(specs: seq<OptSpec>, sps: seq<Spelling>): seq<seq<Command>>
    requires AllAccepted(specs, sps)
  {
    seq(|sps|, k requires 0 <= k < |sps| => Meaning(specs, sps[k]))
  }

  /** The command line of several spellings. */
  function AllArguments(sps: seq<Spelling>): seq<string> {
    Flatten(Words(sps))
  }

  function AllMeanings(specs: seq<OptSpec>, sps: seq<Spelling>): seq<Command>
    requires AllAccepted(specs, sps)
  {
    Flatten(Meanings(specs, sps))
  }

  /** What may follow the options: nothing, `--` and anything, or a positional argument and anything. */
  predicate IsTail(tail: seq<string>) {
    tail == [] || tail[0] == "--" || (!IsLong(tail[0]) && !IsCluster(tail[0]))
  }

  /** The parser in front of an argument, with nothing queued. */
  function At(idx: nat): St {
    St(idx, false, [], [])
  }

  lemma {:induction false} FlagsRun(specs: seq<OptSpec>, args: seq<string>, idx: nat, flags: string, rest: string, pending: seq<Command>)
    requires AreFlags(specs, flags)
    ensures RunCluster(specs, args, idx, flags + rest, pending) == RunCluster(specs, args, idx, rest, pending + FlagCommands(flags))
    decreases flags
  {
    if flags == "" {
      assert flags + rest == rest && pending + [] == pending;
    } else {
      assert (flags + rest)[1..] == flags[1..] + rest;
      FlagsRun(specs, args, idx, flags[1..], rest, pending + [Opt(flags[0], None)]);
      assert pending + [Opt(flags[0], None)] + FlagCommands(flags[1..]) == pending + FlagCommands(flags);
    }
  }

  lemma {:induction false} FlagCommandsAre(flags: string)
    ensures |FlagCommands(flags)| == |flags| && forall k :: 0 <= k < |flags| ==> FlagCommands(flags)[k] == Opt(flags[k], None)
  {
    if flags == "" {
    } else {
      FlagCommandsAre(flags[1..]);
    }
  }

  lemma {:induction false} SplitOnceIs(name: string, rest: string)
    requires '=' !in name
    ensures SplitOnce(name) == (name, None) && SplitOnce(name + "=" + rest) == (name, Some(rest))
  {
    FirstEqualsIs(name, rest);
    assert (name + "=" + rest)[..|name|] == name && (name + "=" + rest)[|name| + 1..] == rest;
  }

  lemma {:induction false} FirstEqualsIs(name: string, rest: string)
    requires '=' !in name
    ensures FirstEquals(name) == |name| && FirstEquals(name + "=" + rest) == |name|
  {
    if name == "" {
    } else {
      FirstEqualsIs(name[1..], rest);
      assert (name + "=" + rest)[1..] == name[1..] + "=" + rest;
    }
  }

  /** The first call on a spelling returns its first option and queues the others. */
  ghost predicate ReadsFirst(specs: seq<OptSpec>, args: seq<string>, idx: nat, sp: Spelling)
    requires Accepted(specs, sp)
  {
    var m := Meaning(specs, sp);
    m != [] && Next(specs, args, At(idx)) == (Some(m[0]), St(idx + |Arguments(sp)|, false, [], m[1..]))
  }

  /** A cluster, the way it is read character by character. */
  lemma {:induction false} ShortIsCluster(specs: seq<OptSpec>, args: seq<string>, idx: nat, sp: Spelling) returns (rest: string)
    requires Accepted(specs, sp) && (sp.Flags? || sp.Attached? || sp.Separate?) && StandsAt(args, idx, Arguments(sp))
    ensures IsCluster(args[idx]) && args[idx][1..] == sp.flags + rest
    ensures rest == if sp.Flags? then "" else if sp.Attached? then [sp.c] + sp.val else [sp.c]
    ensures sp.Separate? ==> args[idx + 1] == sp.val
  {
    var a := args[idx];
    rest := if sp.Flags? then "" else if sp.Attached? then [sp.c] + sp.val else [sp.c];
    assert a == args[idx..idx + |Arguments(sp)|][0] == Arguments(sp)[0];
    assert sp.Separate? ==> args[idx + 1] == args[idx..idx + |Arguments(sp)|][1];
    assert a == "-" + (sp.flags + rest);
    assert a[1] == (sp.flags + rest)[0] != '-' == "--"[1];
  }

  lemma {:induction false} ShortReadsFirst(specs: seq<OptSpec>, args: seq<string>, idx: nat, sp: Spelling)
    requires Accepted(specs, sp) && (sp.Flags? || sp.Attached? || sp.Separate?)
    requires StandsAt(args, idx, Arguments(sp))
    ensures ReadsFirst(specs, args, idx, sp)
  {
    var rest := ShortIsCluster(specs, args, idx, sp);
    var flags := FlagCommands(sp.flags);
    FlagCommandsAre(sp.flags);
    FlagsRun(specs, args, idx, sp.flags, rest, []);
    assert [] + flags == flags;
    ClusterEnd(specs, args, idx, sp, rest, flags);
    ClusterStep(specs, args, idx);
  }

  lemma {:induction false} ClusterEnd(specs: seq<OptSpec>, args: seq<string>, idx: nat, sp: Spelling, rest: string, flags: seq<Command>)
    requires Accepted(specs, sp) && (sp.Flags? || sp.Attached? || sp.Separate?)
    requires rest == if sp.Flags? then "" else if sp.Attached? then [sp.c] + sp.val else [sp.c]
    requires sp.Separate? ==> idx + 1 < |args| && args[idx + 1] == sp.val
    ensures RunCluster(specs, args, idx, rest, flags) ==
            if sp.Flags? then FlagsOnly(flags) else WithArgument(flags, sp.c, sp.val, if sp.Attached? then 0 else 1)
  {
    assert sp.Attached? ==> rest[1..] == sp.val;
  }

  /** A short cluster returns its first option and queues the others. */
  lemma {:induction false} ClusterStep(specs: seq<OptSpec>, args: seq<string>, idx: nat)
    requires idx < |args| && IsCluster(args[idx])
    ensures var r := RunCluster(specs, args, idx, args[idx][1..], []);
      && (r.FlagsOnly? ==> Next(specs, args, At(idx)) == Pop(St(idx + 1, false, [], r.flags)))
      && (r.WithArgument? ==>
            Next(specs, args, At(idx)) == Pop(St(idx + r.extra + 1, false, [], r.flags + [Opt(r.c, Some(r.value))])))
  {
  }

  /** What a long option's argument says behind the two dashes, split at the first equals sign. */
  lemma {:induction false} LongArgument(sp: Spelling) returns (rest: string)
    requires (sp.LongFlag? || sp.LongInline? || sp.LongSeparate?) && '=' !in sp.name
    requires sp.name != "" || sp.LongInline? || (sp.LongFlag? && sp.ignored.Some?)
    ensures Arguments(sp)[0] == "--" + rest && rest != ""
    ensures SplitOnce(rest) ==
            (sp.name, if sp.LongInline? then Some(sp.val) else if sp.LongFlag? then sp.ignored else None)
  {
    var v := match sp case LongFlag(_, Some(w)) => w case LongInline(_, w) => w case _ => "";
    rest := if sp.LongSeparate? || (sp.LongFlag? && sp.ignored.None?) then sp.name else sp.name + "=" + v;
    SplitOnceIs(sp.name, v);
  }

  lemma {:induction false} LongReadsFirst(specs: seq<OptSpec>, args: seq<string>, idx: nat, sp: Spelling)
    requires Accepted(specs, sp) && (sp.LongFlag? || sp.LongInline? || sp.LongSeparate?)
    requires StandsAt(args, idx, Arguments(sp))
    ensures ReadsFirst(specs, args, idx, sp)
  {
    var n := |Arguments(sp)|;
    var rest := LongArgument(sp);
    assert args[idx] == args[idx..idx + n][0] == "--" + rest;
    assert sp.LongSeparate? ==> args[idx + 1] == args[idx..idx + n][1];
    assert IsLong(args[idx]) && args[idx][2..] == rest;
    LongStep(specs, args, idx, rest);
    assert Meaning(specs, sp)[1..] == [];
  }

  lemma {:induction false} LongStep(specs: seq<OptSpec>, args: seq<string>, idx: nat, rest: string)
    requires idx < |args| && IsLong(args[idx]) && args[idx][2..] == rest != ""
    ensures Next(specs, args, At(idx)) ==
            (Some(NextLong(specs, args, At(idx + 1), rest).0), NextLong(specs, args, At(idx + 1), rest).1)
  {
  }

  /** Queued options are returned one after the other. */
  lemma {:induction false} QueueDrains(specs: seq<OptSpec>, args: seq<string>, idx: nat, queue: seq<Command>)
    requires forall k :: 0 <= k < |queue| ==> queue[k].Opt?
    ensures Collect(specs, args, St(idx, false, [], queue)) == queue + Collect(specs, args, At(idx))
    decreases queue
  {
    if queue != [] {
      QueueDrains(specs, args, idx, queue[1..]);
      assert queue == [queue[0]] + queue[1..];
    } else {
      assert queue + Collect(specs, args, At(idx)) == Collect(specs, args, At(idx));
    }
  }

  lemma {:induction false} MeaningIsOptions(specs: seq<OptSpec>, sp: Spelling)
    requires Accepted(specs, sp)
    ensures forall k :: 0 <= k < |Meaning(specs, sp)| ==> Meaning(specs, sp)[k].Opt?
  {
    if sp.Flags? || sp.Attached? || sp.Separate? { FlagCommandsAre(sp.flags); }
  }

  lemma {:induction false} SpellingIsRead(specs: seq<OptSpec>, args: seq<string>, idx: nat, sp: Spelling)
    requires Accepted(specs, sp)
    requires StandsAt(args, idx, Arguments(sp))
    ensures Collect(specs, args, At(idx)) ==
            Meaning(specs, sp) + Collect(specs, args, At(idx + |Arguments(sp)|))
  {
    if sp.Flags? || sp.Attached? || sp.Separate? {
      ShortReadsFirst(specs, args, idx, sp);
    } else {
      LongReadsFirst(specs, args, idx, sp);
    }
    MeaningIsOptions(specs, sp);
    FirstThenQueue(specs, args, idx, Meaning(specs, sp), idx + |Arguments(sp)|);
  }

  lemma {:induction false} FirstThenQueue(specs: seq<OptSpec>, args: seq<string>, idx: nat, m: seq<Command>, idx': nat)
    requires m != [] && forall k :: 0 <= k < |m| ==> m[k].Opt?
    requires Next(specs, args, At(idx)) == (Some(m[0]), St(idx', false, [], m[1..]))
    ensures Collect(specs, args, At(idx)) == m + Collect(specs, args, At(idx'))
  {
    var later := Collect(specs, args, At(idx'));
    QueueDrains(specs, args, idx', m[1..]);
    assert m == [m[0]] + m[1..];
    assert [m[0]] + (m[1..] + later) == m + later;
  }

  /** From this position on, the options `m` are collected before what is collected behind the arguments `piece`. */
  predicate ReadsAs(specs: seq<OptSpec>, args: seq<string>, idx: nat, piece: seq<string>, m: seq<Command>) {
    Collect(specs, args, At(idx)) == m + Collect(specs, args, At(idx + |piece|))
  }

  lemma {:induction false} ReadsAsTwo(specs: seq<OptSpec>, args: seq<string>, idx: nat,
                                      p: seq<string>, m: seq<Command>, q: seq<string>, n: seq<Command>)
    requires ReadsAs(specs, args, idx, p, m) && ReadsAs(specs, args, idx + |p|, q, n)
    ensures ReadsAs(specs, args, idx, p + q, m + n)
  {
    ConcatIsAssociative(m, n, Collect(specs, args, At(idx + |p| + |q|)));
  }

  /** Each of the pieces, wherever it stands, is read as its options. */
  ghost predicate ReadsEach(specs: seq<OptSpec>, args: seq<string>, pieces: seq<seq<string>>, ms: seq<seq<Command>>) {
    |ms| == |pieces| &&
    forall k, i: nat :: 0 <= k < |pieces| && StandsAt(args, i, pieces[k]) ==> ReadsAs(specs, args, i, pieces[k], ms[k])
  }

  lemma {:induction false} ReadsEachRest(specs: seq<OptSpec>, args: seq<string>, pieces: seq<seq<string>>, ms: seq<seq<Command>>)
    requires ReadsEach(specs, args, pieces, ms) && pieces != []
    ensures ReadsEach(specs, args, pieces[1..], ms[1..])
  {
    forall k, i: nat | 0 <= k < |pieces[1..]| && StandsAt(args, i, pieces[1..][k])
      ensures ReadsAs(specs, args, i, pieces[1..][k], ms[1..][k])
    {
      assert pieces[1..][k] == pieces[k + 1] && ms[1..][k] == ms[k + 1];
    }
  }

  lemma {:induction false} ReadInTurn(specs: seq<OptSpec>, args: seq<string>, idx: nat, pieces: seq<seq<string>>, ms: seq<seq<Command>>)
    requires LaidAt(args, idx, pieces) && ReadsEach(specs, args, pieces, ms)
    ensures ReadsAs(specs, args, idx, Flatten(pieces), Flatten(ms))
    decreases pieces
  {
    if pieces == [] {
      assert [] + Collect(specs, args, At(idx)) == Collect(specs, args, At(idx));
    } else {
      var rest, restMs, next := pieces[1..], ms[1..], idx + |pieces[0]|;
      assert ReadsAs(specs, args, idx, pieces[0], ms[0]);
      ReadsEachRest(specs, args, pieces, ms);
      ReadInTurn(specs, args, next, rest, restMs);
      ReadsAsTwo(specs, args, idx, pieces[0], ms[0], Flatten(rest), Flatten(restMs));
    }
  }

  lemma {:induction false} SpellingsAreRead(specs: seq<OptSpec>, args: seq<string>, idx: nat, sps: seq<Spelling>)
    requires AllAccepted(specs, sps) && LaidAt(args, idx, Words(sps))
    ensures ReadsAs(specs, args, idx, AllArguments(sps), AllMeanings(specs, sps))
  {
    forall k, i: nat | 0 <= k < |sps| && StandsAt(args, i, Words(sps)[k])
      ensures ReadsAs(specs, args, i, Words(sps)[k], Meanings(specs, sps)[k])
    {
      SpellingIsRead(specs, args, i, sps[k]);
    }
    ReadInTurn(specs, args, idx, Words(sps), Meanings(specs, sps));
  }

  lemma {:induction false} TailIsSilent(specs: seq<OptSpec>, args: seq<string>, idx: nat)
    requires idx <= |args| && IsTail(args[idx..])
    ensures Collect(specs, args, At(idx)) == []
  {
    if idx < |args| { assert args[idx] == args[idx..][0]; }
  }

  /** Any option list, in any mix of accepted spellings and followed by any tail, is returned by repeated calls in
      exactly that order, and then nothing: the caller's loop ends without an unknown option. */
  lemma {:induction false} ParserUndoesSpelling(specs: seq<OptSpec>, sps: seq<Spelling>, tail: seq<string>)
    requires IsTail(tail) && AllAccepted(specs, sps)
    ensures Collect(specs, AllArguments(sps) + tail, START) == AllMeanings(specs, sps)
  {
    var args := AllArguments(sps) + tail;
    assert args[0..] == args && args[|AllArguments(sps)|..] == tail;
    LaidAtIff(args, 0, Words(sps));
    SpellingsAreRead(specs, args, 0, sps);
    TailIsSilent(specs, args, |AllArguments(sps)|);
  }

  // ---------------------------------------------------------------------------------------------
  // Nothing else is accepted
  // ---------------------------------------------------------------------------------------------

  /** The call at this argument reports an unknown option or a missing argument. */
  predicate Refused(specs: seq<OptSpec>, args: seq<string>, idx: nat) {
    Next(specs, args, At(idx)).0.Some? && Next(specs, args, At(idx)).0.value.Unknown?
  }

  /** What is written in front of the option with an argument that ends a cluster. */
  lemma {:induction false} ClusterShape(specs: seq<OptSpec>, args: seq<string>, idx: nat, chars: string, pending: seq<Command>)
    returns (flags: string)
    ensures var r := RunCluster(specs, args, idx, chars, pending);
      && AreFlags(specs, flags)
      && (r.FlagsOnly? ==> chars == flags)
      && (r.WithArgument? ==>
            TakesArg(specs, r.c) &&
            if r.extra == 0 then chars == flags + ([r.c] + r.value) && r.value != ""
            else r.extra == 1 && chars == flags + [r.c] && idx + 1 < |args| && r.value == args[idx + 1])
    decreases chars
  {
    flags := "";
    if chars != "" && IsFlag(specs, chars[0]) {
      var more := ClusterShape(specs, args, idx, chars[1..], pending + [Opt(chars[0], None)]);
      flags := [chars[0]] + more;
      assert chars == [chars[0]] + chars[1..];
    } else if chars != "" {
      assert chars == [chars[0]] + chars[1..] && "" + chars == chars;
    }
  }

  lemma {:induction false} TwoDashesAreLong(a: string)
    ensures |a| > 1 && a[0] == '-' && a[1] == '-' ==> IsLong(a)
  {
  }

  lemma {:induction false} ClusterIsSpelling(specs: seq<OptSpec>, args: seq<string>, idx: nat) returns (sp: Spelling)
    requires idx < |args| && IsCluster(args[idx]) && !Refused(specs, args, idx)
    ensures Accepted(specs, sp) && StandsAt(args, idx, Arguments(sp))
  {
    var a := args[idx];
    var r := RunCluster(specs, args, idx, a[1..], []);
    var flags := ClusterShape(specs, args, idx, a[1..], []);
    TwoDashesAreLong(a);
    assert a == "-" + a[1..];
    if r.FlagsOnly? {
      sp := Flags(flags);
    } else if r.extra == 0 {
      sp := Attached(flags, r.c, r.value);
      assert (flags + [r.c])[0] == (flags + ([r.c] + r.value))[0] == a[1];
    } else {
      sp := Separate(flags, r.c, r.value);
      assert (flags + [r.c])[0] == a[1];
    }
  }

  lemma {:induction false} LongIsSpelling(specs: seq<OptSpec>, args: seq<string>, idx: nat) returns (sp: Spelling)
    requires idx < |args| && IsLong(args[idx]) && args[idx] != "--" && !Refused(specs, args, idx)
    ensures Accepted(specs, sp) && StandsAt(args, idx, Arguments(sp))
  {
    var a := args[idx];
    var rest := a[2..];
    assert a == "--" + rest;
    LongStep(specs, args, idx, rest);
    var (name, inline) := SplitOnce(rest);
    assert rest == if inline.None? then name else name + "=" + inline.value;
    var spec := FindLong(specs, name).spec;
    sp := if !spec.arg then LongFlag(name, inline)
          else if inline.Some? then LongInline(name, inline.value)
          else LongSeparate(name, args[idx + 1]);
    StandsAtOnes(args, idx);
    assert Arguments(sp)[0] == a;
  }

  /** The spelling in front of the parser, if the next call neither ends nor complains. */
  lemma {:induction false} NextSpelling(specs: seq<OptSpec>, args: seq<string>, idx: nat) returns (sp: Spelling)
    requires idx <= |args| && !IsTail(args[idx..]) && !Refused(specs, args, idx)
    ensures Accepted(specs, sp) && StandsAt(args, idx, Arguments(sp)) && Arguments(sp) != []
  {
    assert args[idx..][0] == args[idx];
    if IsLong(args[idx]) { sp := LongIsSpelling(specs, args, idx); } else { sp := ClusterIsSpelling(specs, args, idx); }
  }

  lemma {:induction false} OneMoreSpelling(specs: seq<OptSpec>, args: seq<string>, idx: nat, sp: Spelling, more: seq<Spelling>)
    requires Accepted(specs, sp) && AllAccepted(specs, more)
    requires StandsAt(args, idx, Arguments(sp)) && LaidAt(args, idx + |Arguments(sp)|, Words(more))
    ensures AllAccepted(specs, [sp] + more) && LaidAt(args, idx, Words([sp] + more))
    ensures AllArguments([sp] + more) == Arguments(sp) + AllArguments(more)
  {
    assert Words([sp] + more) == [Arguments(sp)] + Words(more);
    assert ([Arguments(sp)] + Words(more))[1..] == Words(more);
  }

  /** Every command line starts with accepted spellings, up to a tail or to the first refused argument. */
  lemma {:induction false} Decompose(specs: seq<OptSpec>, args: seq<string>, idx: nat) returns (sps: seq<Spelling>)
    requires idx <= |args|
    ensures AllAccepted(specs, sps) && LaidAt(args, idx, Words(sps))
    ensures var n := idx + |AllArguments(sps)|;
      n <= |args| && (IsTail(args[n..]) || Refused(specs, args, n))
    decreases |args| - idx
  {
    sps := [];
    if !IsTail(args[idx..]) && !Refused(specs, args, idx) {
      var sp := NextSpelling(specs, args, idx);
      var more := Decompose(specs, args, idx + |Arguments(sp)|);
      sps := [sp] + more;
      OneMoreSpelling(specs, args, idx, sp, more);
    }
  }

  /** What the caller's loop collects from any command line whatever: the options of the accepted spellings it starts
      with, followed by the complaint about the first argument that is none. */
  lemma {:induction false} EveryLineIsRead(specs: seq<OptSpec>, args: seq<string>) returns (sps: seq<Spelling>)
    ensures AllAccepted(specs, sps) && AllArguments(sps) <= args
    ensures var rest := args[|AllArguments(sps)|..];
      && (IsTail(rest) || Refused(specs, args, |AllArguments(sps)|))
      && Collect(specs, args, START) ==
         AllMeanings(specs, sps) + if IsTail(rest) then [] else [Next(specs, args, At(|AllArguments(sps)|)).0.value]
  {
    sps := Decompose(specs, args, 0);
    assert args[0..] == args;
    LaidAtIff(args, 0, Words(sps));
    SpellingsAreRead(specs, args, 0, sps);
    var n := |AllArguments(sps)|;
    if IsTail(args[n..]) { TailIsSilent(specs, args, n); }
  }

  lemma {:induction false} MeaningsAreOptions(specs: seq<OptSpec>, sps: seq<Spelling>)
    requires AllAccepted(specs, sps)
    ensures forall c :: c in AllMeanings(specs, sps) ==> c.Opt?
  {
    forall k | 0 <= k < |sps| ensures forall c :: c in Meanings(specs, sps)[k] ==> c.Opt? {
      MeaningIsOptions(specs, sps[k]);
    }
    FlattenKeeps(Meanings(specs, sps), (c: Command) => c.Opt?);
  }

  /** A command line is spelled correctly: accepted spellings, then a tail. */
  ghost predicate WellSpelled(specs: seq<OptSpec>, args: seq<string>) {
    exists sps, tail :: AllAccepted(specs, sps) && IsTail(tail) && args == AllArguments(sps) + tail
  }

  /** The parser gets through a command line without a complaint if and only if it is spelled correctly. */
  lemma {:induction false} AcceptedIffWellSpelled(specs: seq<OptSpec>, args: seq<string>)
    ensures (forall c :: c in Collect(specs, args, START) ==> c.Opt?) <==> WellSpelled(specs, args)
  {
    if WellSpelled(specs, args) {
      var sps, tail :| AllAccepted(specs, sps) && IsTail(tail) && args == AllArguments(sps) + tail;
      ParserUndoesSpelling(specs, sps, tail);
      MeaningsAreOptions(specs, sps);
    } else {
      var sps := EveryLineIsRead(specs, args);
      var all := Collect(specs, args, START);
      assert args == AllArguments(sps) + args[|AllArguments(sps)|..];
      assert all[|AllMeanings(specs, sps)|] in all && all[|AllMeanings(specs, sps)|].Unknown?;
    }
  }

  /** Once nothing is returned, nothing ever is. */
  lemma {:induction false} NothingIsFinal(specs: seq<OptSpec>, args: seq<string>, st: St)
    requires Next(specs, args, st).0.None?
    ensures Next(specs, args, Next(specs, args, st).1) == (None, Next(specs, args, st).1)
  {
    if st.queue == [] && !st.done && st.idx < |args| && IsCluster(args[st.idx]) {
      RunClusterSize(specs, args, st.idx, args[st.idx][1..], st.pending);
    }
  }

  /** The cluster fails at its flag number `k`: that one is unknown, or is the last one and lacks its argument. */
  predicate FaultAt(specs: seq<OptSpec>, args: seq<string>, idx: nat, chars: string, k: nat) {
    && k < |chars| && AreFlags(specs, chars[..k])
    && (FindShort(specs, chars[k]).None? || (TakesArg(specs, chars[k]) && k == |chars| - 1 && idx + 1 >= |args|))
  }

  function Complaint(specs: seq<OptSpec>, c: char): string {
    if FindShort(specs, c).None? then "-" + [c] else "-" + [c] + " requires an argument"
  }

  lemma {:induction false} FaultBreaks(specs: seq<OptSpec>, args: seq<string>, idx: nat, chars: string, pending: seq<Command>, k: nat)
    requires FaultAt(specs, args, idx, chars, k)
    ensures RunCluster(specs, args, idx, chars, pending) == Broken(pending + FlagCommands(chars[..k]), Complaint(specs, chars[k]))
  {
    var rest := chars[k..];
    assert chars == chars[..k] + rest;
    FlagsRun(specs, args, idx, chars[..k], rest, pending);
  }

  lemma {:induction false} BrokenHasFault(specs: seq<OptSpec>, args: seq<string>, idx: nat, chars: string, pending: seq<Command>)
    returns (k: nat)
    requires RunCluster(specs, args, idx, chars, pending).Broken?
    ensures FaultAt(specs, args, idx, chars, k)
    decreases chars
  {
    if IsFlag(specs, chars[0]) {
      var m := BrokenHasFault(specs, args, idx, chars[1..], pending + [Opt(chars[0], None)]);
      k := m + 1;
      assert chars[..k] == [chars[0]] + chars[1..][..m] && chars[k] == chars[1..][m];
    } else {
      k := 0;
    }
  }

  /** When a short cluster is complained about: exactly when one of its flags is unknown, or needs an argument that
      neither the cluster nor the command line has, and all flags in front of it are plain.  The parser does not
      advance then: it only piles up those flags, and the next call complains again, for ever.  That is why callers
      stop at the first complaint. */
  lemma {:induction false} UnknownInClusterRepeats(specs: seq<OptSpec>, args: seq<string>, st: St)
    requires st.queue == [] && !st.done && st.idx < |args| && IsCluster(args[st.idx])
    requires forall k :: 0 <= k < |st.pending| ==> st.pending[k].Opt?
    ensures Next(specs, args, st).0.Some?
    ensures Next(specs, args, st).0.value.Unknown? <==> exists k: nat :: FaultAt(specs, args, st.idx, args[st.idx][1..], k)
    ensures forall k: nat :: FaultAt(specs, args, st.idx, args[st.idx][1..], k) ==>
      var piled := st.(pending := st.pending + FlagCommands(args[st.idx][1..][..k]));
      && Next(specs, args, st) == (Some(Unknown(Complaint(specs, args[st.idx][1..][k]))), piled)
      && Next(specs, args, piled).0 == Next(specs, args, st).0
      && Next(specs, args, piled).1.idx == st.idx
  {
    var chars := args[st.idx][1..];
    RunClusterSize(specs, args, st.idx, chars, st.pending);
    forall k: nat | FaultAt(specs, args, st.idx, chars, k)
      ensures var piled := st.(pending := st.pending + FlagCommands(chars[..k]));
        && Next(specs, args, st) == (Some(Unknown(Complaint(specs, chars[k]))), piled)
        && Next(specs, args, piled).0 == Next(specs, args, st).0 && Next(specs, args, piled).1.idx == st.idx
    {
      FaultBreaks(specs, args, st.idx, chars, st.pending, k);
      FaultBreaks(specs, args, st.idx, chars, st.pending + FlagCommands(chars[..k]), k);
    }
    if RunCluster(specs, args, st.idx, chars, st.pending).Broken? {
      var k := BrokenHasFault(specs, args, st.idx, chars, st.pending);
    }
  }

  // ---------------------------------------------------------------------------------------------
  // Long names
  // ---------------------------------------------------------------------------------------------

  predicate Abbreviates(name: string, spec: OptSpec) {
    name <= spec.long && name != ""
  }

  lemma {:induction false} NoHits(specs: seq<OptSpec>, name: string)
    ensures Hits(specs, name) == [] <==> forall k :: 0 <= k < |specs| ==> !Abbreviates(name, specs[k])
  {
    if specs == [] {
    } else {
      NoHits(specs[1..], name);
      assert forall k :: 0 < k < |specs| ==> specs[k] == specs[1..][k - 1];
    }
  }

  /** The option at `k` is the only one that the name abbreviates. */
  ghost predicate OnlyHit(specs: seq<OptSpec>, name: string, k: nat) {
    k < |specs| && Abbreviates(name, specs[k]) && forall j :: 0 <= j < |specs| && j != k ==> !Abbreviates(name, specs[j])
  }

  lemma {:induction false} OneHit(specs: seq<OptSpec>, name: string) returns (k: nat)
    requires |Hits(specs, name)| == 1
    ensures OnlyHit(specs, name, k) && Hits(specs, name) == [specs[k]]
  {
    assert forall j :: 0 < j < |specs| ==> specs[j] == specs[1..][j - 1];
    if Abbreviates(name, specs[0]) {
      k := 0;
      NoHits(specs[1..], name);
    } else {
      var m := OneHit(specs[1..], name);
      k := m + 1;
    }
  }

  lemma {:induction false} OnlyHitIsHit(specs: seq<OptSpec>, name: string, k: nat)
    requires OnlyHit(specs, name, k)
    ensures Hits(specs, name) == [specs[k]]
  {
    assert forall j :: 0 < j < |specs| ==> specs[j] == specs[1..][j - 1];
    if k == 0 {
      NoHits(specs[1..], name);
    } else {
      OnlyHitIsHit(specs[1..], name, k - 1);
    }
  }

  lemma {:induction false} ExactIs(specs: seq<OptSpec>, name: string)
    ensures FindExact(specs, name).None? <==> forall k :: 0 <= k < |specs| ==> specs[k].long != name
    ensures FindExact(specs, name).Some? ==> FindExact(specs, name).value in specs && FindExact(specs, name).value.long == name
  {
    if specs == [] {
    } else {
      ExactIs(specs[1..], name);
      assert forall k :: 0 < k < |specs| ==> specs[k] == specs[1..][k - 1];
    }
  }

  predicate FirstWithLetter(specs: seq<OptSpec>, k: nat, c: char) {
    k < |specs| && specs[k].short == c && forall j :: 0 <= j < k ==> specs[j].short != c
  }

  predicate FirstWithName(specs: seq<OptSpec>, k: nat, name: string) {
    k < |specs| && specs[k].long == name && forall j :: 0 <= j < k ==> specs[j].long != name
  }

  /** In a table with repeated letters or names the first entry counts; a letter in no entry is unknown. */
  lemma {:induction false} FirstEntryCounts(specs: seq<OptSpec>, c: char, name: string)
    ensures forall k: nat :: FirstWithLetter(specs, k, c) ==> FindShort(specs, c) == Some(specs[k])
    ensures forall k: nat :: FirstWithName(specs, k, name) ==> FindLong(specs, name) == Found(specs[k])
    ensures FindShort(specs, c).None? <==> forall k :: 0 <= k < |specs| ==> specs[k].short != c
  {
    forall k: nat | FirstWithLetter(specs, k, c) ensures FindShort(specs, c) == Some(specs[k]) { LetterIsFound(specs, k, c); }
    forall k: nat | FirstWithName(specs, k, name) ensures FindLong(specs, name) == Found(specs[k]) { NameIsFound(specs, k, name); }
    UnknownLetter(specs, c);
  }

  lemma {:induction false} LetterIsFound(specs: seq<OptSpec>, k: nat, c: char)
    requires FirstWithLetter(specs, k, c)
    ensures FindShort(specs, c) == Some(specs[k])
  {
    if k > 0 {
      assert forall j :: 0 < j < |specs| ==> specs[j] == specs[1..][j - 1];
      LetterIsFound(specs[1..], k - 1, c);
    }
  }

  lemma {:induction false} NameIsFound(specs: seq<OptSpec>, k: nat, name: string)
    requires FirstWithName(specs, k, name)
    ensures FindExact(specs, name) == Some(specs[k])
  {
    if k > 0 {
      assert forall j :: 0 < j < |specs| ==> specs[j] == specs[1..][j - 1];
      NameIsFound(specs[1..], k - 1, name);
    }
  }

  lemma {:induction false} UnknownLetter(specs: seq<OptSpec>, c: char)
    ensures FindShort(specs, c).None? <==> forall k :: 0 <= k < |specs| ==> specs[k].short != c
  {
    if specs == [] {
    } else {
      UnknownLetter(specs[1..], c);
      assert forall k :: 0 < k < |specs| ==> specs[k] == specs[1..][k - 1];
    }
  }

  /** A long name that is no option's own is accepted if and only if it abbreviates exactly one option, and then
      means that one; it is unknown if and only if it abbreviates none, and ambiguous if it abbreviates more. */
  lemma {:induction false} PrefixAcceptedIff(specs: seq<OptSpec>, name: string)
    requires forall k :: 0 <= k < |specs| ==> specs[k].long != name
    ensures FindLong(specs, name).Found? <==> exists k: nat :: OnlyHit(specs, name, k)
    ensures forall k: nat :: OnlyHit(specs, name, k) ==> FindLong(specs, name) == Found(specs[k])
    ensures FindLong(specs, name).NotFound? <==> forall k :: 0 <= k < |specs| ==> !Abbreviates(name, specs[k])
  {
    ExactIs(specs, name);
    NoHits(specs, name);
    forall k: nat | OnlyHit(specs, name, k) ensures FindLong(specs, name) == Found(specs[k]) {
      OnlyHitIsHit(specs, name, k);
    }
    if |Hits(specs, name)| == 1 { var k := OneHit(specs, name); }
  }

  /** Option letters and names differ, no letter is a dash, and no name is empty or holds an equals sign. */
  predicate TableOk(specs: seq<OptSpec>) {
    specs == [] ||
    (specs[0].short != '-' && specs[0].long != "" && '=' !in specs[0].long &&
     FindShort(specs[1..], specs[0].short).None? && FindExact(specs[1..], specs[0].long).None? && TableOk(specs[1..]))
  }

  lemma {:induction false} Reachable(specs: seq<OptSpec>, k: nat)
    requires TableOk(specs) && k < |specs|
    ensures FindShort(specs, specs[k].short) == Some(specs[k]) && FindExact(specs, specs[k].long) == Some(specs[k])
    ensures specs[k].short != '-' && specs[k].long != "" && '=' !in specs[k].long
  {
    if k == 0 {
    } else {
      Reachable(specs[1..], k - 1);
      assert specs[1..][k - 1] == specs[k];
      FoundIsElement(specs[1..], specs[k]);
    }
  }

  lemma {:induction false} FoundIsElement(specs: seq<OptSpec>, spec: OptSpec)
    requires spec in specs
    ensures FindShort(specs, spec.short).Some? && FindExact(specs, spec.long).Some?
  {
    if specs[0] != spec { FoundIsElement(specs[1..], spec); }
  }

  /** A long name that stands for the option: its own, or one that abbreviates no other. */
  predicate Names(specs: seq<OptSpec>, name: string, k: nat)
    requires k < |specs|
  {
    name == specs[k].long ||
    (name != "" && name <= specs[k].long &&
     forall j :: 0 <= j < |specs| && j != k ==> !Abbreviates(name, specs[j]))
  }

  lemma {:induction false} NamesAreFound(specs: seq<OptSpec>, name: string, k: nat)
    requires TableOk(specs) && k < |specs| && Names(specs, name, k)
    ensures name != "" && '=' !in name && FindLong(specs, name) == Found(specs[k])
  {
    Reachable(specs, k);
    ExactIs(specs, name);
    if name != specs[k].long {
      assert Abbreviates(name, specs[k]) && OnlyHit(specs, name, k);
      assert forall j :: 0 <= j < |specs| && specs[j].long == name ==> Abbreviates(name, specs[j]);
      OnlyHitIsHit(specs, name, k);
    }
  }

  lemma {:induction false} LettersAreNoDashes(specs: seq<OptSpec>, c: char)
    requires TableOk(specs) && FindShort(specs, c).Some?
    ensures c != '-'
  {
    if specs[0].short == c {
    } else {
      LettersAreNoDashes(specs[1..], c);
    }
  }

  /** The spelling is accepted and stands for just these options. */
  predicate Means(specs: seq<OptSpec>, sp: Spelling, cmds: seq<Command>) {
    Accepted(specs, sp) && Meaning(specs, sp) == cmds
  }

  /** In such a table every option with an argument is accepted in every way of writing it, and means itself: behind
      any flags in one cluster with its argument attached or following, and under its long name or an unambiguous
      abbreviation of it. */
  lemma {:induction false} EveryOptionIsAccepted(specs: seq<OptSpec>, k: nat, flags: string, name: string, val: string)
    requires TableOk(specs) && k < |specs| && specs[k].arg && AreFlags(specs, flags) && Names(specs, name, k)
    ensures var c, cmd := specs[k].short, Opt(specs[k].short, Some(val));
      && (val != "" ==> Means(specs, Attached(flags, c, val), FlagCommands(flags) + [cmd]))
      && Means(specs, Separate(flags, c, val), FlagCommands(flags) + [cmd])
      && Means(specs, LongInline(name, val), [cmd])
      && Means(specs, LongSeparate(name, val), [cmd])
  {
    Reachable(specs, k);
    NamesAreFound(specs, name, k);
    var first := (flags + [specs[k].short])[0];
    assert first == if flags == "" then specs[k].short else flags[0];
    LettersAreNoDashes(specs, first);
  }

  /** And so is every cluster of flags, and every flag under such a long name. */
  lemma {:induction false} EveryFlagIsAccepted(specs: seq<OptSpec>, k: nat, flags: string, name: string, v: Option<string>)
    requires TableOk(specs) && k < |specs| && !specs[k].arg && AreFlags(specs, flags) && Names(specs, name, k)
    ensures Means(specs, Flags([specs[k].short] + flags), [Opt(specs[k].short, None)] + FlagCommands(flags))
    ensures Means(specs, LongFlag(name, v), [Opt(specs[k].short, None)])
  {
    Reachable(specs, k);
    NamesAreFound(specs, name, k);
    assert ([specs[k].short] + flags)[1..] == flags;
  }
}
