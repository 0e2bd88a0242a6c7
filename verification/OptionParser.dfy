/** The `getopt_long` lookalike of src/cli.rs, as a parser object and as a state function, the progress its calls make,
    and the loop both programs run over them. */
module OptionParser {
  import opened Wrappers

  datatype OptSpec = OptSpec(short: char, long: string, arg: bool)

  datatype Command = Opt(c: char, value: Option<string>) | Unknown(msg: string)

  // ---------------------------------------------------------------------------------------------
  // Looking options up
  // ---------------------------------------------------------------------------------------------

  function FindShort(specs: seq<OptSpec>, c: char): Option<OptSpec> {
    if specs == [] then None
    else if specs[0].short == c then Some(specs[0])
    else FindShort(specs[1..], c)
  }

  function FindExact(specs: seq<OptSpec>, name: string): Option<OptSpec> {
    if specs == [] then None
    else if specs[0].long == name then Some(specs[0])
    else FindExact(specs[1..], name)
  }

  /** The options whose long name the given one abbreviates. */
  function Hits(specs: seq<OptSpec>, name: string): seq<OptSpec> {
    if specs == [] then []
    else (if name <= specs[0].long && name != "" then [specs[0]] else []) + Hits(specs[1..], name)
  }

  datatype Lookup = Found(spec: OptSpec) | NotFound | Ambiguous

  /** `find_long`: an exact name, else an unambiguous prefix. */
  function FindLong(specs: seq<OptSpec>, name: string): Lookup {
    var exact := FindExact(specs, name);
    if exact.Some? then Found(exact.value)
    else
      var hits := Hits(specs, name);
      if |hits| == 0 then NotFound else if |hits| == 1 then Found(hits[0]) else Ambiguous
  }

  // ---------------------------------------------------------------------------------------------
  // The parser as a state function
  // ---------------------------------------------------------------------------------------------

  datatype St = St(idx: nat, done: bool, pending: seq<Command>, queue: seq<Command>)

  const START: St := St(0, false, [], [])

  function FirstEquals(s: string): (n: nat)
    ensures n <= |s| && '=' !in s[..n] && (n < |s| ==> s[n] == '=')
  {
    if s == "" || s[0] == '=' then 0
    else
      var n := 1 + FirstEquals(s[1..]);
      assert s[..n] == [s[0]] + s[1..][..n - 1];
      n
  }

  /** `split_once('=')` */
  function SplitOnce(s: string): (string, Option<string>) {
    var n := FirstEquals(s);
    if n < |s| then (s[..n], Some(s[n + 1..])) else (s, None)
  }

  /** How the loop over a short cluster ends: with no-argument flags only, with an option and its argument, or at
      a flag that is unknown or lacks its argument. */
  datatype Cluster = FlagsOnly(flags: seq<Command>)
                   | WithArgument(flags: seq<Command>, c: char, value: string, extra: nat)
                   | Broken(flags: seq<Command>, msg: string)

  function RunCluster(specs: seq<OptSpec>, args: seq<string>, idx: nat, chars: string, pending: seq<Command>): Cluster {
    if chars == "" then FlagsOnly(pending)
    else
      var c := chars[0];
      match FindShort(specs, c)
      case None => Broken(pending, "-" + [c])
      case Some(spec) =>
        if !spec.arg then RunCluster(specs, args, idx, chars[1..], pending + [Opt(c, None)])
        else if |chars| > 1 then WithArgument(pending, c, chars[1..], 0)
        else if idx + 1 < |args| then WithArgument(pending, c, args[idx + 1], 1)
        else Broken(pending, "-" + [c] + " requires an argument")
  }

  predicate IsLong(a: string) {
    "--" <= a
  }

  predicate IsCluster(a: string) {
    |a| > 1 && a[0] == '-' && !IsLong(a)
  }

  function Pop(st: St): (Option<Command>, St) {
    if st.queue == [] then (None, st) else (Some(st.queue[0]), st.(queue := st.queue[1..]))
  }

  /** A long option; `st` has moved past its argument already. */
  function NextLong(specs: seq<OptSpec>, args: seq<string>, st: St, rest: string): (Command, St) {
    var (name, inline) := SplitOnce(rest);
    match FindLong(specs, name)
    case Ambiguous => (Unknown("option '--" + name + "' is ambiguous"), st)
    case NotFound => (Unknown("--" + name), st)
    case Found(spec) =>
      if !spec.arg then (Opt(spec.short, None), st)
      else if inline.Some? then (Opt(spec.short, inline), st)
      else if st.idx < |args| then (Opt(spec.short, Some(args[st.idx])), st.(idx := st.idx + 1))
      else (Unknown("--" + name + " requires an argument"), st)
  }

  /** One call of `next_command`. */
  function Next(specs: seq<OptSpec>, args: seq<string>, st: St): (Option<Command>, St) {
    if st.queue != [] then Pop(st)
    else if st.done || st.idx >= |args| then (None, st)
    else
      var a := args[st.idx];
      if IsLong(a) then
        if a[2..] == "" then (None, st.(idx := st.idx + 1, done := true))
        else
          var (cmd, st') := NextLong(specs, args, st.(idx := st.idx + 1), a[2..]);
          (Some(cmd), st')
      else if IsCluster(a) then
        match RunCluster(specs, args, st.idx, a[1..], st.pending)
        case FlagsOnly(flags) => Pop(st.(idx := st.idx + 1, pending := [], queue := flags))
        case WithArgument(flags, c, v, extra) =>
          Pop(st.(idx := st.idx + extra + 1, pending := [], queue := flags + [Opt(c, Some(v))]))
        case Broken(flags, msg) => (Some(Unknown(msg)), st.(pending := flags))
      else (None, st.(done := true))
  }

  // ---------------------------------------------------------------------------------------------
  // The parser object
  // ---------------------------------------------------------------------------------------------

  class Parser {
    const specs: seq<OptSpec>
    const args: seq<string>
    var idx: nat
    var done: bool
    var pending: seq<Command>
    var queue: seq<Command>

    constructor (specs: seq<OptSpec>, args: seq<string>)
      ensures this.specs == specs && this.args == args && Abs() == START
    {
      this.specs, this.args := specs, args;
      idx, done, pending, queue := 0, false, [], [];
    }

    function Abs(): St
      reads this
    {
      St(idx, done, pending, queue)
    }

    method NextCommand() returns (r: Option<Command>)
      modifies this
      ensures (r, Abs()) == Next(specs, args, old(Abs()))
    {
      if queue != [] {
        r := Some(queue[0]);
        queue := queue[1..];
        return;
      }
      if done || idx >= |args| {
        return None;
      }
      var a := args[idx];
      if "--" <= a {
        var rest := a[2..];
        idx := idx + 1;
        if rest == "" {
          done := true;
          return None;
        }
        var (name, inline) := SplitOnce(rest);
        var found := FindLong(specs, name);
        match found {
          case Ambiguous => return Some(Unknown("option '--" + name + "' is ambiguous"));
          case NotFound => return Some(Unknown("--" + name));
          case Found(spec) =>
            if !spec.arg {
              return Some(Opt(spec.short, None));
            }
            if inline.Some? {
              return Some(Opt(spec.short, inline));
            }
            if idx < |args| {
              r := Some(Opt(spec.short, Some(args[idx])));
              idx := idx + 1;
              return;
            }
            return Some(Unknown("--" + name + " requires an argument"));
        }
      }
      if |a| > 1 && a[0] == '-' {
        r := NextShort(a);
        return;
      }
      done := true;
      r := None;
    }

    /** The short-cluster part of `next_command`. */
    method NextShort(a: string) returns (r: Option<Command>)
      requires idx < |args| && a == args[idx] && IsCluster(a) && queue == [] && !done
      modifies this
      ensures (r, Abs()) == Next(specs, args, old(Abs()))
    {
      var flags := a[1..];
      var i := 0;
      while i < |flags|
        invariant 0 <= i <= |flags|
        invariant queue == [] && idx == old(idx) && done == old(done)
        invariant RunCluster(specs, args, idx, flags[i..], pending) == RunCluster(specs, args, idx, flags, old(pending))
        invariant i > 0 ==> pending != []
      {
        var c := flags[i];
        assert flags[i..][0] == c && flags[i..][1..] == flags[i + 1..];
        i := i + 1;
        var found := FindShort(specs, c);
        if found.None? {
          return Some(Unknown("-" + [c]));
        }
        if !found.value.arg {
          pending := pending + [Opt(c, None)];
          continue;
        }
        var val;
        if i < |flags| {
          val := flags[i..];
        } else if idx + 1 < |args| {
          val := args[idx + 1];
          idx := idx + 1;
        } else {
          return Some(Unknown("-" + [c] + " requires an argument"));
        }
        assert queue + pending == pending;
        queue := queue + pending;
        pending := [];
        idx := idx + 1;
        queue := queue + [Opt(c, Some(val))];
        r := Some(queue[0]);
        queue := queue[1..];
        return;
      }
      assert flags[i..] == "" && queue + pending == pending;
      idx := idx + 1;
      queue := queue + pending;
      pending := [];
      r := Some(queue[0]);
      queue := queue[1..];
    }
  }

  // ---------------------------------------------------------------------------------------------
  // Progress
  // ---------------------------------------------------------------------------------------------

  /** Characters still to be read, one more for each argument. */
  function Size(args: seq<string>): nat {
    if args == [] then 0 else |args[0]| + 1 + Size(args[1..])
  }

  /** What is left: unread arguments, queued commands, and the end of options. */
  function Measure(args: seq<string>, st: St): nat {
    (if st.idx <= |args| then Size(args[st.idx..]) else 0) + |st.queue| + |st.pending|
  }

  lemma {:induction false} RunClusterSize(specs: seq<OptSpec>, args: seq<string>, idx: nat, chars: string, pending: seq<Command>)
    ensures var r := RunCluster(specs, args, idx, chars, pending);
      && |r.flags| <= |pending| + |chars|
      && (r.FlagsOnly? ==> |r.flags| == |pending| + |chars|)
      && (r.WithArgument? ==> |r.flags| < |pending| + |chars| && r.extra <= 1 && (r.extra == 1 ==> idx + 1 < |args|))
      && (r.FlagsOnly? || r.WithArgument? ==> forall k :: |pending| <= k < |r.flags| ==> r.flags[k].Opt?)
      && pending <= r.flags
    decreases chars
  {
    if chars != "" && FindShort(specs, chars[0]).Some? && !FindShort(specs, chars[0]).value.arg {
      RunClusterSize(specs, args, idx, chars[1..], pending + [Opt(chars[0], None)]);
    }
  }

  /** A call that returns an option makes the measure smaller. */
  lemma {:induction false} OptionsMakeProgress(specs: seq<OptSpec>, args: seq<string>, st: St)
    requires Next(specs, args, st).0.Some? && Next(specs, args, st).0.value.Opt?
    ensures Measure(args, Next(specs, args, st).1) < Measure(args, st)
  {
    if st.queue == [] {
      var a := args[st.idx];
      SizeDrops(args, st.idx);
      if st.idx + 1 < |args| { SizeDrops(args, st.idx + 1); }
      if IsCluster(a) {
        RunClusterSize(specs, args, st.idx, a[1..], st.pending);
      }
    }
  }

  lemma {:induction false} SizeDrops(args: seq<string>, i: nat)
    requires i < |args|
    ensures Size(args[i..]) == |args[i]| + 1 + Size(args[i + 1..])
  {
    assert args[i..][1..] == args[i + 1..];
  }

  /** The loop both programs run: call `next_command` until it returns nothing or an unknown option. */
  function Collect(specs: seq<OptSpec>, args: seq<string>, st: St): seq<Command>
    decreases Measure(args, st)
  {
    var (cmd, st') := Next(specs, args, st);
    match cmd
    case None => []
    case Some(Unknown(msg)) => [Unknown(msg)]
    case Some(Opt(c, v)) =>
      OptionsMakeProgress(specs, args, st);
      [Opt(c, v)] + Collect(specs, args, st')
  }

  method CollectCommands(specs: seq<OptSpec>, args: seq<string>) returns (cmds: seq<Command>)
    ensures cmds == Collect(specs, args, START)
  {
    var p := new Parser(specs, args);
    cmds := [];
    var next := p.NextCommand();
    ghost var before := START;
    while next.Some?
      invariant p.specs == specs && p.args == args
      invariant (next, p.Abs()) == Next(specs, args, before)
      invariant cmds + Collect(specs, args, before) == Collect(specs, args, START)
      decreases Measure(args, before)
    {
      cmds := cmds + [next.value];
      if next.value.Unknown? {
        break;
      }
      OptionsMakeProgress(specs, args, before);
      before := p.Abs();
      next := p.NextCommand();
    }
  }
}
