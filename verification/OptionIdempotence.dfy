/** Parsing is idempotent: fuse_opt_parse, given its own successful output, returns it unchanged
    and hands the same options and non-options on, as long as the option text fits its length. */
module OptionIdempotence {
  import opened Wrappers
  import opened OptionText
  import opened OptionParser

  predicate Keeps(p: Proc, arg: string, key: Key) {
    Verdict(p, arg, key) != -1 && Verdict(p, arg, key) != 0
  }

  // ---------- what a run kept ----------

  /** The options of groups that were kept, in order. */
  function KeptOptions(p: Proc, log: seq<Delivery>): (r: seq<string>) {
    if log == [] then []
    else
      var d := log[|log|-1];
      KeptOptions(p, log[..|log|-1]) + (if d.iso && Keeps(p, d.arg, d.key) then [d.arg] else [])
  }

  /** Every other argument that was kept, with its key. */
  function KeptArgs(p: Proc, log: seq<Delivery>): (r: seq<(string, Key)>) {
    if log == [] then []
    else
      var d := log[|log|-1];
      KeptArgs(p, log[..|log|-1]) + (if !d.iso && Keeps(p, d.arg, d.key) then [(d.arg, d.key)] else [])
  }

  lemma KeptSnoc(p: Proc, log: seq<Delivery>, d: Delivery)
    ensures KeptOptions(p, log + [d]) == KeptOptions(p, log) + (if d.iso && Keeps(p, d.arg, d.key) then [d.arg] else [])
    ensures KeptArgs(p, log + [d]) == KeptArgs(p, log) + (if !d.iso && Keeps(p, d.arg, d.key) then [(d.arg, d.key)] else [])
  {
    assert (log + [d])[..|log|] == log;
  }

  // ---------- the shape of an output vector ----------

  /** An argument that neither opens a group nor is the separator. */
  predicate Plain(x: string) {
    x == [] || x[0] != '-' || (x != "--" && !(|x| > 1 && x[1] == 'o'))
  }

  /** The key the parser gives to out[j] when the separator stands at sep. */
  function KeyAt(x: string, j: nat, sep: nat): Key {
    if j > sep || x == [] || x[0] != '-' then KeyNonOpt else KeyOpt
  }

  /** Where the separator stands; |out| when there is none. */
  function SepOf(c: Ctx): nat {
    if c.nonopt == 0 then |c.out| else c.nonopt - 1
  }

  /** An argument the parser would take over as it is. */
  ghost predicate Settled(p: Proc, x: string, j: nat, sep: nat) {
    if j == sep then x == "--" else (j < sep ==> Plain(x)) && Keeps(p, x, KeyAt(x, j, sep))
  }

  /** The arguments from position i on, without the separator. */
  function ArgsFrom(out: seq<string>, i: nat, sep: nat): seq<(string, Key)>
    decreases |out| - i
  {
    if i >= |out| then []
    else (if i == sep then [] else [(out[i], KeyAt(out[i], i, sep))]) + ArgsFrom(out, i + 1, sep)
  }

  lemma {:induction false} ArgsSnoc(out: seq<string>, i: nat, sep: nat, x: string, sep': nat)
    requires i <= |out| && (sep < |out| ==> sep' == sep) && (sep >= |out| ==> sep' >= |out|)
    ensures ArgsFrom(out + [x], i, sep')
            == ArgsFrom(out, i, sep) + (if |out| == sep' then [] else [(x, KeyAt(x, |out|, sep'))])
    decreases |out| - i
  {
    if i < |out| {
      ArgsSnoc(out, i + 1, sep, x, sep');
    } else {
      assert ArgsFrom(out + [x], i + 1, sep') == [];
    }
  }

  /** The invariant of the argument loop. */
  ghost predicate Good(p: Proc, c: Ctx) {
    && c.out != [] && c.nonopt <= |c.out| && (c.nonopt > 0 ==> c.nonopt > 1)
    && (forall j | 1 <= j < |c.out| :: Settled(p, c.out[j], j, SepOf(c)))
    && KeptArgs(p, c.log) == ArgsFrom(c.out, 1, SepOf(c))
    && c.opts == CutPrinted(KeptOptions(p, c.log))
    && (forall k :: k in KeptOptions(p, c.log) ==> NulFree(k) && Keeps(p, k, KeyOpt))
  }

  lemma CallOption(p: Proc, c: Ctx, arg: string)
    requires Good(p, c) && NulFree(arg)
    ensures var r := CallProc(c, p, arg, KeyOpt, true); r.Some? ==> Good(p, r.value)
  {
    var d := Delivery(arg, KeyOpt, true);
    KeptSnoc(p, c.log, d);
    if Keeps(p, arg, KeyOpt) {
      var ks := KeptOptions(p, c.log);
      assert (ks + [arg])[..|ks|] == ks;
    } else {
      assert KeptOptions(p, c.log + [d]) == KeptOptions(p, c.log);
    }
    assert KeptArgs(p, c.log + [d]) == KeptArgs(p, c.log);
  }

  lemma CallArg(p: Proc, c: Ctx, arg: string, key: Key)
    requires Good(p, c)
    requires c.nonopt == 0 ==> Plain(arg)
    requires key == if c.nonopt > 0 || arg == [] || arg[0] != '-' then KeyNonOpt else KeyOpt
    ensures var r := CallProc(c, p, arg, key, false); r.Some? ==> Good(p, r.value)
  {
    var d := Delivery(arg, key, false);
    KeptSnoc(p, c.log, d);
    assert KeptOptions(p, c.log + [d]) == KeptOptions(p, c.log);
    if Keeps(p, arg, key) {
      var c' := c.(log := c.log + [d], out := c.out + [arg]);
      ArgsSnoc(c.out, 1, SepOf(c), arg, SepOf(c'));
      forall j | 1 <= j < |c'.out| ensures Settled(p, c'.out[j], j, SepOf(c')) {
        if j < |c.out| { assert Settled(p, c.out[j], j, SepOf(c)); }
      }
    } else {
      assert KeptArgs(p, c.log + [d]) == KeptArgs(p, c.log);
    }
  }

  lemma AddSeparator(p: Proc, c: Ctx)
    requires Good(p, c) && c.nonopt == 0
    ensures Good(p, c.(out := c.out + ["--"], nonopt := |c.out| + 1))
  {
    var c' := c.(out := c.out + ["--"], nonopt := |c.out| + 1);
    ArgsSnoc(c.out, 1, SepOf(c), "--", SepOf(c'));
    forall j | 1 <= j < |c'.out| ensures Settled(p, c'.out[j], j, SepOf(c')) {
      if j < |c.out| { assert Settled(p, c.out[j], j, SepOf(c)); }
    }
  }

  lemma {:induction false} GroupGood(p: Proc, c: Ctx, parts: seq<string>)
    requires Good(p, c)
    ensures Group(c, p, parts).Some? ==> Good(p, Group(c, p, parts).value)
    decreases |parts|
  {
    if parts != [] {
      CallOption(p, c, CStr(parts[0]));
      var r := CallProc(c, p, CStr(parts[0]), KeyOpt, true);
      if r.Some? { GroupGood(p, r.value, parts[1..]); }
    }
  }

  lemma {:induction false} ParseGood(p: Proc, c: Ctx, argv: seq<string>, i: nat)
    requires Good(p, c)
    ensures ParseFrom(c, p, argv, i).Some? ==> Good(p, ParseFrom(c, p, argv, i).value)
    decreases if i <= |argv| then |argv| - i else 0
  {
    hide Good;
    if i < |argv| {
      var arg := argv[i];
      if c.nonopt > 0 || arg == [] || arg[0] != '-' {
        CallArg(p, c, arg, KeyNonOpt);
        var r := CallProc(c, p, arg, KeyNonOpt, false);
        if r.Some? { ParseGood(p, r.value, argv, i + 1); }
      } else if |arg| > 1 && arg[1] == 'o' {
        var g := if |arg| > 2 then Parts(arg[2..], []) else if i + 1 < |argv| then Parts(argv[i+1], []) else [];
        GroupGood(p, c, g);
        var r := Group(c, p, g);
        if r.Some? { ParseGood(p, r.value, argv, if |arg| > 2 then i + 1 else i + 2); }
      } else if arg == "--" {
        AddSeparator(p, c);
        ParseGood(p, c.(out := c.out + [arg], nonopt := |c.out| + 1), argv, i + 1);
      } else {
        CallArg(p, c, arg, KeyOpt);
        var r := CallProc(c, p, arg, KeyOpt, false);
        if r.Some? { ParseGood(p, r.value, argv, i + 1); }
      }
    }
  }

  // ---------- parsing such a vector again ----------

  function OptionLog(ks: seq<string>): seq<Delivery> {
    if ks == [] then [] else [Delivery(ks[0], KeyOpt, true)] + OptionLog(ks[1..])
  }

  function ArgLog(args: seq<(string, Key)>): seq<Delivery> {
    if args == [] then [] else [Delivery(args[0].0, args[0].1, false)] + ArgLog(args[1..])
  }

  lemma OneOption(p: Proc, c: Ctx, done: seq<string>, k: string)
    requires c.opts == CutPrinted(done) && NulFree(k) && Keeps(p, k, KeyOpt)
    ensures CallProc(c, p, CStr(k), KeyOpt, true)
            == Some(c.(opts := CutPrinted(done + [k]), log := c.log + [Delivery(k, KeyOpt, true)]))
  {
    CStrWhole(k);
    assert (done + [k])[..|done|] == done;
  }

  lemma HeadAndTail(ks: seq<string>)
    requires ks != []
    ensures ks == [ks[0]] + ks[1..] && forall k :: k in ks[1..] ==> k in ks
  {
  }

  /** A group of kept options is printed behind what is there. */
  lemma {:induction false} GroupPrints(p: Proc, c: Ctx, done: seq<string>, ks: seq<string>)
    requires c.opts == CutPrinted(done)
    requires forall k :: k in ks ==> NulFree(k) && Keeps(p, k, KeyOpt)
    ensures Group(c, p, ks) == Some(c.(opts := CutPrinted(done + ks), log := c.log + OptionLog(ks)))
    decreases |ks|
  {
    hide CutPrinted;
    hide NulFree;
    hide CStr, CallProc, Keeps;
    if ks == [] {
      assert done + ks == done && c.log + OptionLog(ks) == c.log;
    } else {
      var k := ks[0];
      OneOption(p, c, done, k);
      var c' := c.(opts := CutPrinted(done + [k]), log := c.log + [Delivery(k, KeyOpt, true)]);
      HeadAndTail(ks);
      GroupPrints(p, c', done + [k], ks[1..]);
      Join(done, k, ks[1..]);
      Join(c.log, Delivery(k, KeyOpt, true), OptionLog(ks[1..]));
    }
  }

  /** A settled argument is taken over. */
  lemma OneSettled(p: Proc, c: Ctx, argv: seq<string>, i: nat, sep: nat)
    requires i < |argv| && i != sep && Settled(p, argv[i], i, sep) && (c.nonopt > 0 <==> i > sep)
    ensures var x := argv[i]; var key := KeyAt(x, i, sep);
      ParseFrom(c, p, argv, i)
      == ParseFrom(c.(out := c.out + [x], log := c.log + [Delivery(x, key, false)]), p, argv, i + 1)
  {
    hide Group, Parts;
    var x, key := argv[i], KeyAt(argv[i], i, sep);
    assert CallProc(c, p, x, key, false) == Some(c.(out := c.out + [x], log := c.log + [Delivery(x, key, false)]));
  }

  lemma SettledSeparator(p: Proc, c: Ctx, argv: seq<string>, i: nat)
    requires i < |argv| && argv[i] == "--" && c.nonopt == 0
    ensures ParseFrom(c, p, argv, i) == ParseFrom(c.(out := c.out + ["--"], nonopt := |c.out| + 1), p, argv, i + 1)
  {
  }

  lemma NothingLeft(p: Proc, c: Ctx, argv: seq<string>, sep: nat)
    ensures ParseFrom(c, p, argv, |argv|) == Some(c) && ArgsFrom(argv, |argv|, sep) == [] && ArgLog([]) == []
  {
  }

  /** Settled arguments are taken over one by one. */
  lemma {:induction false} RestParses(p: Proc, c: Ctx, argv: seq<string>, i: nat, sep: nat)
    requires i <= |argv| && sep <= |argv| && c.out != []
    requires forall j | i <= j < |argv| :: Settled(p, argv[j], j, sep)
    requires c.nonopt > 0 <==> i > sep
    ensures ParseFrom(c, p, argv, i) == Some(c.(
              out := c.out + argv[i..],
              nonopt := if i <= sep < |argv| then |c.out| + (sep - i) + 1 else c.nonopt,
              log := c.log + ArgLog(ArgsFrom(argv, i, sep))))
    decreases |argv| - i
  {
    hide ParseFrom, ArgLog, KeyAt;
    if i == |argv| {
      NothingLeft(p, c, argv, sep);
      assert argv[i..] == [] && c.out + [] == c.out && c.log + [] == c.log;
    } else {
      var x, rest := argv[i], argv[i+1..];
      assert Settled(p, x, i, sep);
      hide Settled;
      assert argv[i..] == [x] + rest;
      Join(c.out, x, rest);
      if i == sep {
        assert x == "--" by { SepIs(p, x, i); }
        SettledSeparator(p, c, argv, i);
        RestParses(p, c.(out := c.out + [x], nonopt := |c.out| + 1), argv, i + 1, sep);
        assert ArgsFrom(argv, i, sep) == ArgsFrom(argv, i + 1, sep);
      } else {
        var key, tail := KeyAt(x, i, sep), ArgsFrom(argv, i + 1, sep);
        OneSettled(p, c, argv, i, sep);
        RestParses(p, c.(out := c.out + [x], log := c.log + [Delivery(x, key, false)]), argv, i + 1, sep);
        assert ArgsFrom(argv, i, sep) == [(x, key)] + tail;
        ArgLogCons(x, key, tail);
        Join(c.log, Delivery(x, key, false), ArgLog(tail));
      }
    }
  }

  lemma SepIs(p: Proc, x: string, i: nat)
    requires Settled(p, x, i, i)
    ensures x == "--"
  {
  }

  lemma ArgLogCons(x: string, key: Key, tail: seq<(string, Key)>)
    ensures ArgLog([(x, key)] + tail) == [Delivery(x, key, false)] + ArgLog(tail)
  {
    assert ([(x, key)] + tail)[1..] == tail;
  }

  // ---------- the results ----------

  lemma {:induction false} ArgsShift(a: seq<string>, i: nat, sep: nat, b: seq<string>, i': nat, sep': nat)
    requires i <= |a| && i' <= |b| && a[i..] == b[i'..] && sep as int - i == sep' as int - i'
    ensures ArgsFrom(a, i, sep) == ArgsFrom(b, i', sep')
    decreases |a| - i
  {
    if i < |a| {
      assert a[i] == a[i..][0] == b[i'..][0] == b[i'];
      assert a[i+1..] == a[i..][1..] == b[i'..][1..] == b[i'+1..];
      ArgsShift(a, i + 1, sep, b, i' + 1, sep');
    }
  }

  /** Nothing was kept in groups: the arguments are parsed again as they are. */
  lemma ReparsePlain(p: Proc, c: Ctx)
    requires Good(p, c) && c.opts == None
    ensures var r := Finish(c);
      r.out != [] && Parse(r.out, p) == Some(Ctx(r.out, None, if r.out == c.out then c.nonopt else 0, ArgLog(KeptArgs(p, c.log))))
  {
    var r := Finish(c);
    var out, sep := r.out, SepOf(c);
    if r.out != c.out {
      assert c.out == out + ["--"] && sep == |out|;
      ArgsSnoc(out, 1, sep, "--", sep);
      assert ArgsFrom(out, 1, sep) == KeptArgs(p, c.log);
    }
    forall j | 1 <= j < |out| ensures Settled(p, out[j], j, sep) { assert Settled(p, c.out[j], j, sep); }
    RestParses(p, Start(out), out, 1, sep);
    assert [out[0]] + out[1..] == out;
    assert [] + ArgLog(ArgsFrom(out, 1, sep)) == ArgLog(KeptArgs(p, c.log));
  }

  /** The option group in front is taken apart and printed again. */
  lemma ReparseGroup(p: Proc, out: seq<string>, ks: seq<string>)
    requires ks != [] && Whole(ks) && (forall k :: k in ks ==> NulFree(k) && Keeps(p, k, KeyOpt))
    requires |out| >= 3 && out[1] == "-o" && CutPrinted(ks) == Some(out[2])
    ensures ParseFrom(Start(out), p, out, 1)
            == ParseFrom(Ctx([out[0]], Some(out[2]), 0, OptionLog(Normal(ks))), p, out, 3)
  {
    hide CutPrinted, Printed, Whole, Parts, Normal, OptionLog, Keeps, NulFree;
    CutExactly(ks);
    PrintedRoundTrip(ks);
    WholeNormal(ks);
    var first := Start(out);
    NothingPrinted();
    GroupPrints(p, first, [], Normal(ks));
    assert [] + Normal(ks) == Normal(ks) && [] + OptionLog(Normal(ks)) == OptionLog(Normal(ks));
    GroupInFront(p, out);
  }

  lemma NothingPrinted()
    ensures CutPrinted([]) == None
  {
  }

  lemma GroupInFront(p: Proc, out: seq<string>)
    requires |out| >= 3 && out[1] == "-o"
    ensures ParseFrom(Start(out), p, out, 1) == Continue(Group(Start(out), p, Parts(out[2], [])), p, out, 3)
  {
    hide Parts, Group;
  }

  /** What stands behind the option group is parsed as it was. */
  lemma ReparseBehindGroup(p: Proc, c: Ctx, out: seq<string>, opts: Option<string>, log: seq<Delivery>)
    requires Good(p, c) && c.opts.Some? && out == [c.out[0], "-o", c.opts.value] + c.out[1..]
    ensures ParseFrom(Ctx([out[0]], opts, 0, log), p, out, 3)
            == Some(Ctx(c.out, opts, c.nonopt, log + ArgLog(KeptArgs(p, c.log))))
  {
    var sep := SepOf(c) + 2;
    forall j | 3 <= j < |out| ensures Settled(p, out[j], j, sep) { assert Settled(p, c.out[j-2], j - 2, SepOf(c)); }
    RestParses(p, Ctx([out[0]], opts, 0, log), out, 3, sep);
    assert out[3..] == c.out[1..] && [out[0]] + c.out[1..] == c.out;
    ArgsShift(out, 3, sep, c.out, 1, SepOf(c));
  }

  /** With options kept, the separator is never removed. */
  lemma OptionsInFront(c: Ctx)
    requires c.out != [] && c.opts.Some? && c.nonopt <= |c.out|
    ensures Finish(c) == c.(out := [c.out[0], "-o", c.opts.value] + c.out[1..])
  {
    var one := InsertAt(c.out, 1, "-o");
    assert one == [c.out[0], "-o"] + c.out[1..];
    assert InsertAt(one, 2, c.opts.value) == [c.out[0], "-o", c.opts.value] + c.out[1..];
  }

  /** Kept options stand in front; they are taken apart and printed again. */
  lemma ReparseOptions(p: Proc, c: Ctx)
    requires Good(p, c) && c.opts.Some? && Whole(KeptOptions(p, c.log))
    ensures var r := Finish(c); var ks := Normal(KeptOptions(p, c.log));
      r.out != [] && Parse(r.out, p) == Some(Ctx(r.out, c.opts, c.nonopt, OptionLog(ks) + ArgLog(KeptArgs(p, c.log))))
  {
    var out, ks := Finish(c).out, KeptOptions(p, c.log);
    OptionsInFront(c);
    ReparseGroup(p, out, ks);
    ReparseBehindGroup(p, c, out, c.opts, OptionLog(Normal(ks)));
    OptionsInFront(Ctx(c.out, c.opts, c.nonopt, OptionLog(Normal(ks)) + ArgLog(KeptArgs(p, c.log))));
  }

  lemma {:induction false} GroupLog(c: Ctx, p: Proc, parts: seq<string>)
    requires Group(c, p, parts).Some?
    ensures Group(c, p, parts).value.log == c.log + OptionLog(Seen(parts))
    decreases |parts|
  {
    if parts == [] {
      assert c.log + OptionLog(Seen(parts)) == c.log;
    } else {
      var k := CStr(parts[0]);
      var c' := CallProc(c, p, k, KeyOpt, true).value;
      GroupLog(c', p, parts[1..]);
      assert Seen(parts)[1..] == Seen(parts[1..]);
      Join(c.log, Delivery(k, KeyOpt, true), OptionLog(Seen(parts[1..])));
    }
  }

  lemma {:induction false} OptionLogTells(a: seq<string>, b: seq<string>)
    requires OptionLog(a) == OptionLog(b)
    ensures a == b
    decreases |a|
  {
    if a != [] && b != [] {
      assert OptionLog(a)[0].arg == a[0] && OptionLog(b)[0].arg == b[0];
      assert OptionLog(a)[1..] == OptionLog(a[1..]) && OptionLog(b)[1..] == OptionLog(b[1..]);
      OptionLogTells(a[1..], b[1..]);
    } else {
      assert a == [] || OptionLog(a) != [];
    }
  }

  lemma SameFront<T>(a: seq<T>, b: seq<T>, tail: seq<T>)
    requires a + tail == b + tail
    ensures a == b
  {
    assert |a| == |b|;
    assert a == (a + tail)[..|a|] && b == (b + tail)[..|b|];
  }

  /** If parsing again hands on the same options, the text in front held them all. */
  lemma ReparsedOptionsFit(p: Proc, c: Ctx)
    requires Good(p, c) && c.opts.Some? && Finish(c).out != [] && Parse(Finish(c).out, p).Some?
    requires Parse(Finish(c).out, p).value.log
             == OptionLog(Normal(KeptOptions(p, c.log))) + ArgLog(KeptArgs(p, c.log))
    ensures Whole(KeptOptions(p, c.log))
  {
    hide Parse, Parts, Seen, OptionLog, ArgLog, Whole;
    var out, ks, args := Finish(c).out, KeptOptions(p, c.log), ArgLog(KeptArgs(p, c.log));
    OptionsInFront(c);
    var parts := Parts(c.opts.value, []);
    assert out[1] == "-o" && out[2] == c.opts.value;
    OptionsSeen(p, c, out, parts);
    SameFront(OptionLog(Seen(parts)), OptionLog(Normal(ks)), args);
    OptionLogTells(Seen(parts), Normal(ks));
    HoldsExactly(ks);
  }

  lemma OptionsSeen(p: Proc, c: Ctx, out: seq<string>, parts: seq<string>)
    requires Good(p, c) && c.opts.Some? && out == [c.out[0], "-o", c.opts.value] + c.out[1..]
    requires Parse(out, p).Some? && parts == Parts(c.opts.value, [])
    ensures Parse(out, p).value.log == OptionLog(Seen(parts)) + ArgLog(KeptArgs(p, c.log))
  {
    hide Parts, Seen, OptionLog, ArgLog, Good, Group;
    assert out[1] == "-o" && out[2] == c.opts.value;
    GroupInFront(p, out);
    var g := Group(Start(out), p, parts).value;
    GroupLog(Start(out), p, parts);
    GroupKeepsOut(Start(out), p, parts);
    ReparseBehindGroup(p, c, out, g.opts, g.log);
    assert [] + OptionLog(Seen(parts)) == OptionLog(Seen(parts));
  }

  /** Parsing the vector r.out again succeeds, returns the same vector, and delivers exactly the
      options and the other arguments that were kept, in the same order and with the same keys,
      except that empty options in front of all others are gone. */
  ghost predicate Stable(p: Proc, r: Ctx) {
    && r.out != [] && Parse(r.out, p).Some?
    && Parse(r.out, p).value.out == r.out
    && Parse(r.out, p).value.log == OptionLog(Normal(KeptOptions(p, r.log))) + ArgLog(KeptArgs(p, r.log))
  }

  lemma StartGood(argv: seq<string>, p: Proc)
    requires argv != []
    ensures Good(p, Start(argv))
  {
    assert ArgsFrom([argv[0]], 1, 1) == [];
  }

  lemma ParsedGood(argv: seq<string>, p: Proc)
    requires argv != [] && Parse(argv, p).Some?
    ensures ParseFrom(Start(argv), p, argv, 1).Some?
    ensures var c := ParseFrom(Start(argv), p, argv, 1).value; Good(p, c) && Parse(argv, p).value == Finish(c)
  {
    StartGood(argv, p);
    ParseGood(p, Start(argv), argv, 1);
  }

  /** The output of a successful parse is stable exactly if the text of the kept options, up to the
      last of them, was never longer than add_opt_common can count. */
  lemma ReparseIsStable(argv: seq<string>, p: Proc)
    requires argv != [] && Parse(argv, p).Some?
    ensures var r := Parse(argv, p).value; Stable(p, r) <==> Whole(KeptOptions(p, r.log))
  {
    ParsedGood(argv, p);
    var c := ParseFrom(Start(argv), p, argv, 1).value;
    if c.opts.None? {
      assert KeptOptions(p, c.log) == [];
      ReparsePlain(p, c);
      assert OptionLog(Normal([])) + ArgLog(KeptArgs(p, c.log)) == ArgLog(KeptArgs(p, c.log));
    } else {
      if Whole(KeptOptions(p, c.log)) { ReparseOptions(p, c); }
      if Stable(p, Finish(c)) { ReparsedOptionsFit(p, c); }
    }
  }

  lemma {:induction false} KeptOfOptionLog(p: Proc, ks: seq<string>)
    requires forall k :: k in ks ==> Keeps(p, k, KeyOpt)
    ensures KeptOptions(p, OptionLog(ks)) == ks && KeptArgs(p, OptionLog(ks)) == []
    decreases |ks|
  {
    if ks != [] {
      var m := |ks| - 1;
      OptionLogSnoc(ks[..m], ks[m]);
      assert ks == ks[..m] + [ks[m]];
      KeptOfOptionLog(p, ks[..m]);
      KeptSnoc(p, OptionLog(ks[..m]), Delivery(ks[m], KeyOpt, true));
    }
  }

  lemma {:induction false} OptionLogSnoc(ks: seq<string>, k: string)
    ensures OptionLog(ks + [k]) == OptionLog(ks) + [Delivery(k, KeyOpt, true)]
    decreases |ks|
  {
    if ks == [] {
      assert ks + [k] == [k] && OptionLog([k]) == [Delivery(k, KeyOpt, true)] + OptionLog([]);
    } else {
      assert (ks + [k])[1..] == ks[1..] + [k];
      OptionLogSnoc(ks[1..], k);
    }
  }

  /** Behind any log, a log of kept arguments adds just these arguments. */
  lemma {:induction false} KeptOfArgLog(p: Proc, log: seq<Delivery>, args: seq<(string, Key)>)
    requires forall i | 0 <= i < |args| :: Keeps(p, args[i].0, args[i].1)
    ensures KeptOptions(p, log + ArgLog(args)) == KeptOptions(p, log)
    ensures KeptArgs(p, log + ArgLog(args)) == KeptArgs(p, log) + args
    decreases |args|
  {
    hide KeptOptions, KeptArgs, Keeps;
    if args == [] {
      assert log + ArgLog(args) == log;
    } else {
      var d, rest := Delivery(args[0].0, args[0].1, false), args[1..];
      Join(log, d, ArgLog(rest));
      KeptSnoc(p, log, d);
      RestKept(p, args);
      KeptOfArgLog(p, log + [d], rest);
      Join(KeptArgs(p, log), args[0], rest);
    }
  }

  lemma Join<T>(a: seq<T>, x: T, b: seq<T>)
    ensures a + ([x] + b) == (a + [x]) + b
  {
  }

  lemma RestKept(p: Proc, args: seq<(string, Key)>)
    requires args != [] && forall i | 0 <= i < |args| :: Keeps(p, args[i].0, args[i].1)
    ensures args == [args[0]] + args[1..]
    ensures forall i | 0 <= i < |args[1..]| :: Keeps(p, args[1..][i].0, args[1..][i].1)
  {
  }

  lemma {:induction false} KeptAreKept(p: Proc, log: seq<Delivery>)
    ensures forall i | 0 <= i < |KeptArgs(p, log)| :: Keeps(p, KeptArgs(p, log)[i].0, KeptArgs(p, log)[i].1)
    decreases |log|
  {
    if log != [] { KeptAreKept(p, log[..|log|-1]); }
  }

  /** From the second parse on nothing changes any more: vector and deliveries are a fixed point. */
  lemma ThirdParseEqualsSecond(argv: seq<string>, p: Proc)
    requires argv != [] && Parse(argv, p).Some? && Whole(KeptOptions(p, Parse(argv, p).value.log))
    ensures var r := Parse(argv, p).value;
      r.out != [] && Parse(r.out, p).Some? &&
      var r2 := Parse(r.out, p).value;
      r2.out != [] && Parse(r2.out, p).Some? && Parse(r2.out, p).value.log == r2.log && r2.out == r.out
  {
    ParsedGood(argv, p);
    var r := Parse(argv, p).value;
    ReparseIsStable(argv, p);
    var r2 := Parse(r.out, p).value;
    var ks, args := Normal(KeptOptions(p, r.log)), KeptArgs(p, r.log);
    KeptOfOptionLog(p, ks);
    KeptAreKept(p, r.log);
    KeptOfArgLog(p, OptionLog(ks), args);
    NormalIdempotent(KeptOptions(p, r.log));
    WholeNormal(KeptOptions(p, r.log));
    ReparseIsStable(r.out, p);
  }
}
