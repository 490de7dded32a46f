/** fuse_opt_parse of libs/libfuse/lib/fuse_opt.c without templates: the group decoder that works
    in place, the argument loop, and the rewriting of the argument vector. */
module OptionParser {
  import opened Wrappers
  import opened OptionText

  datatype Key = KeyOpt | KeyNonOpt

  /** One call_proc: the argument, its key, and whether it came out of an option group. */
  datatype Delivery = Delivery(arg: string, key: Key, iso: bool)

  /** The caller's processing function, if any; its result depends on the argument and key only.
      -1 stops the parse, 0 discards the argument, anything else keeps it. */
  datatype Proc = NoProc | Proc(f: (string, Key) -> int)

  function Verdict(p: Proc, arg: string, key: Key): int {
    match p
    case NoProc => 1
    case Proc(f) => f(arg, key)
  }

  datatype Ctx = Ctx(out: seq<string>, opts: Option<string>, nonopt: nat, log: seq<Delivery>)

  function CallProc(c: Ctx, p: Proc, arg: string, key: Key, iso: bool): Option<Ctx> {
    var c' := c.(log := c.log + [Delivery(arg, key, iso)]);
    var v := Verdict(p, arg, key);
    if v == -1 then None
    else if v == 0 then Some(c')
    else if iso then Some(c'.(opts := Some(AddOpt(Kept(c.opts), arg, true))))
    else Some(c'.(out := c.out + [arg]))
  }

  /** The options of a group, one after the other; each ends at its first NUL. */
  function Group(c: Ctx, p: Proc, parts: seq<string>): Option<Ctx>
    decreases |parts|
  {
    if parts == [] then Some(c) else
      match CallProc(c, p, CStr(parts[0]), KeyOpt, true)
      case None => None
      case Some(c') => Group(c', p, parts[1..])
  }

  /** The loop of opt_parse from argument i on. */
  function ParseFrom(c: Ctx, p: Proc, argv: seq<string>, i: nat): Option<Ctx>
    decreases if i <= |argv| then |argv| - i else 0, 0
  {
    if i >= |argv| then Some(c) else
      var arg := argv[i];
      if c.nonopt > 0 || arg == [] || arg[0] != '-' then
        Continue(CallProc(c, p, arg, KeyNonOpt, false), p, argv, i + 1)
      else if |arg| > 1 && arg[1] == 'o' then
        if |arg| > 2 then Continue(Group(c, p, Parts(arg[2..], [])), p, argv, i + 1)
        else if i + 1 >= |argv| then None
        else Continue(Group(c, p, Parts(argv[i+1], [])), p, argv, i + 2)
      else if arg == "--" then
        Continue(Some(c.(out := c.out + [arg], nonopt := |c.out| + 1)), p, argv, i + 1)
      else Continue(CallProc(c, p, arg, KeyOpt, false), p, argv, i + 1)
  }

  function Continue(c: Option<Ctx>, p: Proc, argv: seq<string>, i: nat): Option<Ctx>
    requires i > 0
    decreases if i <= |argv| then |argv| - i else 0, 1
  {
    if c.None? then None else ParseFrom(c.value, p, argv, i)
  }

  function InsertAt(s: seq<string>, pos: nat, x: string): seq<string>
    requires pos <= |s|
  {
    s[..pos] + [x] + s[pos..]
  }

  /** The end of opt_parse: the kept options go in as `-o` and its value behind the program name,
      and a separator that is the last argument is removed. */
  function Finish(c: Ctx): Ctx
    requires c.out != []
  {
    var out := if c.opts.Some? then InsertAt(InsertAt(c.out, 1, "-o"), 2, c.opts.value) else c.out;
    if c.nonopt != 0 && c.nonopt == |out| && out[|out|-1] == "--" then c.(out := out[..|out|-1])
    else c.(out := out)
  }

  function Start(argv: seq<string>): Ctx
    requires argv != []
  {
    Ctx([argv[0]], None, 0, [])
  }

  function Parse(argv: seq<string>, p: Proc): Option<Ctx>
    requires argv != []
  {
    match ParseFrom(Start(argv), p, argv, 1)
    case None => None
    case Some(c) => if c.out == [] then None else Some(Finish(c))
  }

  // ---------- the parser itself ----------

  class OptContext {
    const argv: seq<string>
    const proc: Proc
    var argctr: nat
    var outargs: seq<string>
    var opts: Option<string>
    var nonopt: nat
    ghost var log: seq<Delivery>

    ghost function State(): Ctx
      reads this
    {
      Ctx(outargs, opts, nonopt, log)
    }

    constructor (argv: seq<string>, proc: Proc)
      ensures this.argv == argv && this.proc == proc && State() == Ctx([], None, 0, []) && argctr == 0
    {
      this.argv, this.proc := argv, proc;
      argctr, outargs, opts, nonopt, log := 0, [], None, 0, [];
    }

    method DoCallProc(arg: string, key: Key, iso: bool) returns (ok: bool)
      modifies this
      ensures argctr == old(argctr)
      ensures var r := CallProc(old(State()), proc, arg, key, iso);
        (ok <==> r.Some?) && (ok ==> State() == r.value)
    {
      log := log + [Delivery(arg, key, iso)];
      var v := Verdict(proc, arg, key);
      if v == -1 || v == 0 { return v == 0; }
      if iso { opts := Some(AddOpt(Kept(opts), arg, true)); } else { outargs := outargs + [arg]; }
      return true;
    }

    /** process_real_option_group: decodes the buffer in place.  The write position d never passes
        the read position s, and what is still to be read is never overwritten. */
    method ProcessGroup(buf: array<char>, ghost n: nat) returns (ok: bool)
      requires n < buf.Length && buf[n] == NUL && NulFree(buf[..n])
      modifies this, buf
      ensures argctr == old(argctr) && buf[n..] == old(buf[n..])
      ensures var r := Group(old(State()), proc, Parts(old(buf[..n]), []));
        (ok <==> r.Some?) && (ok ==> State() == r.value)
    {
      hide *;
      ghost var text, all := buf[..n], buf[..];
      ghost var result := Group(State(), proc, Parts(text, []));
      var s, d, end := 0, 0, false;
      assert text[0..] == text && buf[..0] == [];
      while !end
        invariant argctr == old(argctr) && all[..n] == text && |all| == buf.Length && all[n] == NUL
        invariant d <= s <= n + 1 && (!end ==> s <= n)
        invariant s <= n ==> buf[s..] == all[s..]
        invariant buf[n..] == all[n..]
        invariant if end then result == Some(State())
                  else result == Group(State(), proc, Parts(text[s..], buf[..d]))
        decreases n + 1 - s, !end
      {
        Unread(buf[..], all, s, n);
        if buf[s] == NUL { end := true; }
        if buf[s] == ',' || end {
          var r := EndPart(buf, n, text, s, d);
          EndsAlike(buf[..], all, s, n);
          if !r { return false; }
          d := 0;
          assert buf[..0] == [];
        } else {
          s, d := DecodeOne(buf, n, text, s, d);
          EndsAlike(buf[..], all, s, n);
        }
        s := s + 1;
      }
      return true;
    }

    /** A part is complete: it is closed by a NUL and handed on. */
    method EndPart(buf: array<char>, ghost n: nat, ghost text: string, s: nat, d: nat) returns (ok: bool)
      requires d <= s <= n < buf.Length && |text| == n && (s < n ==> text[s] == ',')
      modifies this, buf
      ensures argctr == old(argctr) && buf[s+1..] == old(buf[s+1..]) && (buf[s] == old(buf[s]) || buf[s] == NUL)
      ensures var r := Group(old(State()), proc, Parts(text[s..], old(buf[..d])));
        if !ok then r == None
        else r == if s < n then Group(State(), proc, Parts(text[s+1..], [])) else Some(State())
    {
      ghost var cur := buf[..d];
      buf[d] := NUL;
      assert buf[..] == cur + [NUL] + buf[d+1..];
      CStrCut(cur, buf[d+1..]);
      NextPart(text, s, n, cur);
      ok := DoCallProc(CStr(buf[..]), KeyOpt, true);
    }

    /** process_option_group: on a private copy of the group. */
    method ProcessOptionGroup(group: string) returns (ok: bool)
      requires NulFree(group)
      modifies this
      ensures argctr == old(argctr)
      ensures var r := Group(old(State()), proc, Parts(group, []));
        (ok <==> r.Some?) && (ok ==> State() == r.value)
    {
      var copy := new char[|group| + 1](i requires 0 <= i <= |group| => if i < |group| then group[i] else NUL);
      assert copy[..|group|] == group;
      ok := ProcessGroup(copy, |group|);
    }

    /** process_one, on the argument at argctr. */
    method ProcessOne() returns (ok: bool)
      requires argctr < |argv| && forall i | 0 <= i < |argv| :: NulFree(argv[i])
      modifies this
      ensures argctr >= old(argctr)
      ensures var r := ParseFrom(old(State()), proc, argv, old(argctr));
        if ok then r == ParseFrom(State(), proc, argv, argctr + 1) else r == None
    {
      var arg := argv[argctr];
      if nonopt > 0 || arg == [] || arg[0] != '-' {
        ok := DoCallProc(arg, KeyNonOpt, false);
      } else if |arg| > 1 && arg[1] == 'o' {
        if |arg| > 2 {
          assert NulFree(arg[2..]);
          ok := ProcessOptionGroup(arg[2..]);
        } else {
          if argctr + 1 >= |argv| { return false; }
          argctr := argctr + 1;
          ok := ProcessOptionGroup(argv[argctr]);
        }
      } else if arg == "--" {
        outargs := outargs + [arg];
        nonopt := |outargs|;
        ok := true;
      } else {
        ok := DoCallProc(arg, KeyOpt, false);
      }
    }

    /** fuse_opt_insert_arg: append, then shift the tail and put the new argument in place. */
    method InsertArg(pos: nat, arg: string)
      requires pos <= |outargs|
      modifies this`outargs
      ensures outargs == InsertAt(old(outargs), pos, arg)
    {
      outargs := outargs + [arg];
      if pos != |outargs| - 1 {
        outargs := outargs[..pos] + [arg] + outargs[pos..|outargs|-1];
      }
    }

    /** opt_parse. */
    method OptParse() returns (ok: bool)
      requires argv != [] && State() == Ctx([], None, 0, []) && forall i | 0 <= i < |argv| :: NulFree(argv[i])
      modifies this
      ensures (ok <==> Parse(argv, proc).Some?) && (ok ==> State() == Parse(argv, proc).value)
    {
      outargs := outargs + [argv[0]];
      argctr := 1;
      assert outargs == [argv[0]];
      ghost var result := ParseFrom(Start(argv), proc, argv, 1);
      while argctr < |argv|
        invariant argctr >= 1 && result == ParseFrom(State(), proc, argv, argctr)
        decreases |argv| - argctr
      {
        ok := ProcessOne();
        if !ok { return; }
        argctr := argctr + 1;
      }
      OutStarts(Start(argv), proc, argv, 1);
      if opts.Some? {
        InsertArg(1, "-o");
        InsertArg(2, opts.value);
      }
      if nonopt != 0 && nonopt == |outargs| && outargs[|outargs|-1] == "--" {
        outargs := outargs[..|outargs|-1];
      }
      return true;
    }
  }

  /** fuse_opt_parse: without arguments nothing happens; on failure the vector stays as it was. */
  method FuseOptParse(args: seq<string>, p: Proc) returns (res: int, args': seq<string>)
    requires forall i | 0 <= i < |args| :: NulFree(args[i])
    ensures res == 0 || res == -1
    ensures args == [] ==> res == 0 && args' == args
    ensures args != [] ==> (res == 0 <==> Parse(args, p).Some?)
                           && args' == if res == 0 then Parse(args, p).value.out else args
  {
    if args == [] { return 0, args; }
    var ctx := new OptContext(args, p);
    var ok := ctx.OptParse();
    if !ok { return -1, args; }
    return 0, ctx.outargs;
  }

  lemma {:induction false} GroupKeepsOut(c: Ctx, p: Proc, parts: seq<string>)
    ensures Group(c, p, parts).Some? ==>
              Group(c, p, parts).value.out == c.out && Group(c, p, parts).value.nonopt == c.nonopt
    decreases |parts|
  {
    if parts != [] {
      var r := CallProc(c, p, CStr(parts[0]), KeyOpt, true);
      if r.Some? { GroupKeepsOut(r.value, p, parts[1..]); }
    }
  }

  /** The output vector only grows. */
  lemma {:induction false} OutStarts(c: Ctx, p: Proc, argv: seq<string>, i: nat)
    ensures ParseFrom(c, p, argv, i).Some? ==> c.out <= ParseFrom(c, p, argv, i).value.out
    decreases if i <= |argv| then |argv| - i else 0
  {
    if i < |argv| {
      var arg := argv[i];
      if c.nonopt > 0 || arg == [] || arg[0] != '-' {
        var r := CallProc(c, p, arg, KeyNonOpt, false);
        if r.Some? { OutStarts(r.value, p, argv, i + 1); }
      } else if |arg| > 1 && arg[1] == 'o' {
        var g := if |arg| > 2 then Parts(arg[2..], []) else if i + 1 < |argv| then Parts(argv[i+1], []) else [];
        GroupKeepsOut(c, p, g);
        var r := Group(c, p, g);
        if r.Some? { OutStarts(r.value, p, argv, if |arg| > 2 then i + 1 else i + 2); }
      } else if arg == "--" {
        OutStarts(c.(out := c.out + [arg], nonopt := |c.out| + 1), p, argv, i + 1);
      } else {
        var r := CallProc(c, p, arg, KeyOpt, false);
        if r.Some? { OutStarts(r.value, p, argv, i + 1); }
      }
    }
  }

  /** What lies from the end of the text on is the same as before. */
  lemma EndsAlike(now: string, all: string, s: nat, n: nat)
    requires |now| == |all| && s <= n < |all| && all[n] == NUL && now[s+1..] == all[s+1..]
    requires s == n ==> now[n] == NUL
    ensures now[n..] == all[n..]
  {
    if s < n {
      assert now[s+1..][n - s - 1..] == now[n..] && all[s+1..][n - s - 1..] == all[n..];
    } else {
      assert now[n..] == [now[n]] + now[n+1..] && all[n..] == [all[n]] + all[n+1..];
    }
  }

  /** The unread suffix shows what the text says. */
  lemma Unread(now: string, all: string, s: nat, n: nat)
    requires s <= n < |all| == |now| && all[n] == NUL && NulFree(all[..n]) && now[s..] == all[s..]
    ensures forall k | s <= k < n :: now[k] == all[..n][k]
    ensures now[n] == NUL && (now[s] == NUL <==> s == n)
  {
    assert forall k | s <= k <= n :: now[k] == now[s..][k-s] == all[s..][k-s] == all[k];
    assert forall k | s <= k < n :: all[k] == all[..n][k];
  }

  /** The C string of a buffer that got a NUL behind `cur` is that of `cur`. */
  lemma {:induction false} CStrCut(cur: string, tail: string)
    ensures CStr(cur + [NUL] + tail) == CStr(cur)
    decreases |cur|
  {
    var w := cur + [NUL] + tail;
    if cur != [] && cur[0] != NUL {
      assert w[1..] == cur[1..] + [NUL] + tail;
      CStrCut(cur[1..], tail);
    }
  }

  /** At a comma, or at the end, the current part is complete. */
  lemma NextPart(text: string, s: nat, n: nat, cur: string)
    requires s <= n == |text| && (s < n ==> text[s] == ',')
    ensures Parts(text[s..], cur) == [cur] + (if s < n then Parts(text[s+1..], []) else [])
  {
    if s < n { assert text[s..][1..] == text[s+1..]; }
  }

  /** The other branch: one character, plain or escaped, is decoded.  Returns the position of the
      last character read and the new write position. */
  method DecodeOne(buf: array<char>, ghost n: nat, ghost text: string, s0: nat, d0: nat) returns (s: nat, d: nat)
    requires d0 <= s0 < n < buf.Length && |text| == n && NulFree(text)
    requires forall k | s0 <= k < n :: buf[k] == text[k]
    requires buf[n] == NUL && buf[s0] != ','
    modifies buf
    ensures s0 <= s < n && d == d0 + 1
    ensures buf[s+1..] == old(buf[s+1..])
    ensures Parts(text[s0..], old(buf[..d0])) == Parts(text[s+1..], buf[..d])
  {
    s, d := s0, d0;
    ghost var cur, t := buf[..d0], text[s0..];
    assert buf[s0] == t[0] && forall k | 0 <= k < |t| :: t[k] == buf[s0 + k];
    if buf[s] == '\\' && buf[s+1] != NUL {
      s := s + 1;
      assert s < n && t[1..] == text[s..];
      if IsOctal(buf[s], '3') && IsOctal(buf[s+1], '7') && IsOctal(buf[s+2], '7') {
        assert s + 1 < n && s + 2 < n;
        assert Octal(t[1..]) && t[4..] == text[s+3..];
        ghost var v := OctalValue(t[1..]);
        buf[d] := ((buf[s] as int - '0' as int) * 64 + (buf[s+1] as int - '0' as int) * 8 + (buf[s+2] as int - '0' as int)) as char;
        assert buf[..d+1] == cur + [v];
        d := d + 1;
        s := s + 2;
      } else {
        assert !Octal(t[1..]) && t[2..] == text[s+1..];
        buf[d] := buf[s];
        assert buf[..d+1] == cur + [t[1]];
        d := d + 1;
      }
    } else {
      assert t[1..] == text[s+1..];
      assert t[0] == '\\' ==> |t| == 1;
      buf[d] := buf[s];
      assert buf[..d+1] == cur + [t[0]];
      d := d + 1;
    }
  }
}
