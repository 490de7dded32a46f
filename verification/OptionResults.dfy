/** When fuse_opt_parse removes a trailing separator, and when option text is cut off, each with
    the exact condition and an input that fails it. */
module OptionResults {
  import opened Wrappers
  import opened OptionText
  import opened OptionParser
  import opened OptionIdempotence

  // ---------- what the callback decides ----------

  /** The callback's result: -1 stops the parse, 0 drops the argument, and anything else keeps it, at
      the end of the vector or, out of a group, at the end of the option text. */
  lemma CallbackDecides(c: Ctx, f: (string, Key) -> int, arg: string, key: Key, iso: bool)
    ensures var r, log := CallProc(c, Proc(f), arg, key, iso), c.log + [Delivery(arg, key, iso)];
      && (r == None <==> f(arg, key) == -1)
      && (f(arg, key) == 0 ==> r == Some(Ctx(c.out, c.opts, c.nonopt, log)))
      && (f(arg, key) != -1 && f(arg, key) != 0 && !iso ==> r == Some(Ctx(c.out + [arg], c.opts, c.nonopt, log)))
      && (f(arg, key) != -1 && f(arg, key) != 0 && iso ==>
            r.Some? && r.value.out == c.out && r.value.nonopt == c.nonopt && r.value.log == log && r.value.opts.Some?)
  {
  }

  predicate Refuses(p: Proc, d: Delivery) {
    p.Proc? && p.f(d.arg, d.key) == -1
  }

  /** The same callback, dropping what it would stop at. */
  function Lenient(p: Proc): Proc {
    match p
    case NoProc => NoProc
    case Proc(f) => Proc((arg: string, key: Key) => if f(arg, key) == -1 then 0 else f(arg, key))
  }

  /** A last argument `-o` that stands where an option may and lacks its value. */
  predicate MissingValue(argv: seq<string>, i: nat)
    decreases if i <= |argv| then |argv| - i else 0
  {
    i < |argv| &&
    if OpensGroup(argv[i]) then
      if |argv[i]| > 2 then MissingValue(argv, i + 1) else i + 1 == |argv| || MissingValue(argv, i + 2)
    else argv[i] != "--" && MissingValue(argv, i + 1)
  }

  ghost predicate NoneRefused(p: Proc, log: seq<Delivery>) {
    forall d :: d in log ==> !Refuses(p, d)
  }

  /** How a parse with p compares to one with the lenient callback, which gives r. */
  ghost predicate Compares(p: Proc, log: seq<Delivery>, strict: Option<Ctx>, r: Option<Ctx>) {
    && (strict.Some? ==> strict == r)
    && (r.Some? ==> log <= r.value.log)
    && (r.Some? && NoneRefused(p, log) ==> (strict.Some? <==> NoneRefused(p, r.value.log)))
  }

  lemma OneCompares(c: Ctx, p: Proc, arg: string, key: Key, iso: bool)
    ensures CallProc(c, Lenient(p), arg, key, iso).Some?
    ensures Compares(p, c.log, CallProc(c, p, arg, key, iso), CallProc(c, Lenient(p), arg, key, iso))
  {
    hide AddOpt;
    var d := Delivery(arg, key, iso);
    assert d in c.log + [d];
  }

  lemma NothingRefused(p: Proc, c: Ctx)
    ensures Compares(p, c.log, Some(c), Some(c))
  {
  }

  /** What is refused early is refused in the end. */
  lemma ComparesOn(p: Proc, log: seq<Delivery>, strict1: Option<Ctx>, r1: Ctx, strict: Option<Ctx>, r: Option<Ctx>)
    requires Compares(p, log, strict1, Some(r1)) && Compares(p, r1.log, strict, r)
    ensures Compares(p, log, if strict1.None? then None else strict, r)
  {
    if r.Some? && NoneRefused(p, log) && !NoneRefused(p, r1.log) {
      var d :| d in r1.log && Refuses(p, d);
      assert d in r.value.log;
    }
  }

  lemma {:induction false} GroupCompares(c: Ctx, p: Proc, parts: seq<string>)
    ensures Group(c, Lenient(p), parts).Some?
    ensures Compares(p, c.log, Group(c, p, parts), Group(c, Lenient(p), parts))
    ensures Group(c, Lenient(p), parts).value.nonopt == c.nonopt
    decreases |parts|
  {
    hide Compares, CallProc, CStr, Lenient;
    GroupKeepsOut(c, Lenient(p), parts);
    if parts == [] {
      NothingRefused(p, c);
    } else {
      OneCompares(c, p, CStr(parts[0]), KeyOpt, true);
      var r1 := CallProc(c, Lenient(p), CStr(parts[0]), KeyOpt, true).value;
      GroupCompares(r1, p, parts[1..]);
      ComparesOn(p, c.log, CallProc(c, p, CStr(parts[0]), KeyOpt, true), r1,
                 Group(r1, p, parts[1..]), Group(r1, Lenient(p), parts[1..]));
      SameStart(p, c.log, CallProc(c, p, CStr(parts[0]), KeyOpt, true), r1);
    }
  }

  lemma SameStart(p: Proc, log: seq<Delivery>, strict: Option<Ctx>, r: Ctx)
    requires Compares(p, log, strict, Some(r))
    ensures strict == None || strict == Some(r)
  {
  }

  /** The loop from argument i on, once the first step has given strict1 and r1. */
  lemma StepCompares(p: Proc, log: seq<Delivery>, strict1: Option<Ctx>, r1: Ctx, argv: seq<string>, i: nat)
    requires i > 0 && Compares(p, log, strict1, Some(r1))
    requires Compares(p, r1.log, ParseFrom(r1, p, argv, i), ParseFrom(r1, Lenient(p), argv, i))
    ensures Compares(p, log, Continue(strict1, p, argv, i), Continue(Some(r1), Lenient(p), argv, i))
  {
    ComparesOn(p, log, strict1, r1, ParseFrom(r1, p, argv, i), ParseFrom(r1, Lenient(p), argv, i));
    SameStart(p, log, strict1, r1);
    hide Compares, ParseFrom;
  }

  lemma {:induction false} LoopCompares(c: Ctx, p: Proc, argv: seq<string>, i: nat)
    ensures Compares(p, c.log, ParseFrom(c, p, argv, i), ParseFrom(c, Lenient(p), argv, i))
    ensures ParseFrom(c, Lenient(p), argv, i).None? <==> c.nonopt == 0 && MissingValue(argv, i)
    decreases if i <= |argv| then |argv| - i else 0
  {
    hide Compares, CallProc, Group, Parts, Lenient;
    if i >= |argv| {
      NothingRefused(p, c);
    } else {
      var arg := argv[i];
      if c.nonopt > 0 || arg == [] || arg[0] != '-' {
        OneArgument(c, p, argv, i, KeyNonOpt);
      } else if OpensGroup(arg) {
        if |arg| == 2 && i + 1 == |argv| {
          NoneCompares(p, c.log);
        } else {
          var g, i' := Parts(if |arg| > 2 then arg[2..] else argv[i+1], []), if |arg| > 2 then i + 1 else i + 2;
          GroupCompares(c, p, g);
          var r1 := Group(c, Lenient(p), g).value;
          LoopCompares(r1, p, argv, i');
          StepCompares(p, c.log, Group(c, p, g), r1, argv, i');
        }
      } else if arg == "--" {
        var c' := c.(out := c.out + [arg], nonopt := |c.out| + 1);
        LoopCompares(c', p, argv, i + 1);
      } else {
        OneArgument(c, p, argv, i, KeyOpt);
      }
    }
  }

  lemma NoneCompares(p: Proc, log: seq<Delivery>)
    ensures Compares(p, log, None, None)
  {
  }

  lemma OneArgument(c: Ctx, p: Proc, argv: seq<string>, i: nat, key: Key)
    requires i < |argv|
    ensures var strict1, r1 := CallProc(c, p, argv[i], key, false), CallProc(c, Lenient(p), argv[i], key, false);
      && Compares(p, c.log, Continue(strict1, p, argv, i + 1), Continue(r1, Lenient(p), argv, i + 1))
      && (Continue(r1, Lenient(p), argv, i + 1).None? <==> c.nonopt == 0 && MissingValue(argv, i + 1))
    decreases |argv| - i, 0
  {
    hide Compares, MissingValue, Lenient;
    OneCompares(c, p, argv[i], key, false);
    var r1 := CallProc(c, Lenient(p), argv[i], key, false).value;
    LoopCompares(r1, p, argv, i + 1);
    StepCompares(p, c.log, CallProc(c, p, argv[i], key, false), r1, argv, i + 1);
  }

  /** A parse fails exactly if a last `-o` lacks its value, or the callback answers -1 to something it
      is given; where it does neither, the result is that of a callback that drops instead. */
  lemma ParseFailsExactly(argv: seq<string>, p: Proc)
    requires argv != []
    ensures MissingValue(argv, 1) <==> Parse(argv, Lenient(p)).None?
    ensures MissingValue(argv, 1) ==> Parse(argv, p).None?
    ensures !MissingValue(argv, 1) ==>
              && (Parse(argv, p).None? <==>
                    exists d :: d in Parse(argv, Lenient(p)).value.log && p.Proc? && p.f(d.arg, d.key) == -1)
              && (Parse(argv, p).Some? ==> Parse(argv, p) == Parse(argv, Lenient(p)))
  {
    hide Lenient, MissingValue;
    LoopCompares(Start(argv), p, argv, 1);
    OutStarts(Start(argv), p, argv, 1);
    OutStarts(Start(argv), Lenient(p), argv, 1);
  }

  // ---------- which key an argument gets ----------

  lemma {:induction false} GroupKeys(c: Ctx, p: Proc, parts: seq<string>)
    requires Group(c, p, parts).Some?
    ensures c.log <= Group(c, p, parts).value.log
    ensures forall d :: d in Group(c, p, parts).value.log ==> d in c.log || (d.iso && d.key == KeyOpt)
    decreases |parts|
  {
    GroupLog(c, p, parts);
    OptionKeys(Seen(parts));
  }

  lemma {:induction false} OptionKeys(ks: seq<string>)
    ensures forall d :: d in OptionLog(ks) ==> d.iso && d.key == KeyOpt
    decreases |ks|
  {
    if ks != [] { OptionKeys(ks[1..]); }
  }

  /** The key that the callback is given with an argument: an option of a group, or an argument that
      begins with a dash, is an option, and anything else is not. */
  ghost predicate KeyFits(d: Delivery) {
    if d.iso then d.key == KeyOpt else d.key == if d.arg != [] && d.arg[0] == '-' then KeyOpt else KeyNonOpt
  }

  lemma {:induction false} LoopKeys(c: Ctx, p: Proc, argv: seq<string>, i: nat)
    requires i <= |argv| && c.nonopt == 0
    requires ParseFrom(c, p, argv, i).Some? && ParseFrom(c, p, argv, i).value.nonopt == 0
    requires forall d :: d in c.log ==> KeyFits(d)
    ensures forall d :: d in ParseFrom(c, p, argv, i).value.log ==> KeyFits(d)
    decreases |argv| - i
  {
    hide Group, Parts, AddOpt;
    if i < |argv| {
      var arg := argv[i];
      if arg == [] || arg[0] != '-' {
        LoopKeys(CallProc(c, p, arg, KeyNonOpt, false).value, p, argv, i + 1);
      } else if OpensGroup(arg) {
        var g := Parts(if |arg| > 2 then arg[2..] else argv[i+1], []);
        GroupKeys(c, p, g);
        GroupKeepsOut(c, p, g);
        LoopKeys(Group(c, p, g).value, p, argv, if |arg| > 2 then i + 1 else i + 2);
      } else if arg == "--" {
        BehindSeparator(c.(out := c.out + [arg], nonopt := |c.out| + 1), p, argv, i + 1);
      } else {
        LoopKeys(CallProc(c, p, arg, KeyOpt, false).value, p, argv, i + 1);
      }
    }
  }

  /** Without a separator every delivery has the key of its kind. */
  lemma KeysTold(argv: seq<string>, p: Proc)
    requires argv != [] && Collected(argv, p).Some? && Collected(argv, p).value.nonopt == 0
    ensures forall d :: d in Collected(argv, p).value.log ==> KeyFits(d)
  {
    LoopKeys(Start(argv), p, argv, 1);
  }

  function Rest(argv: seq<string>): seq<Delivery> {
    seq(|argv|, i requires 0 <= i < |argv| => Delivery(argv[i], KeyNonOpt, false))
  }

  /** Behind the separator every argument is handed on as it is, none as an option. */
  lemma {:induction false} BehindSeparator(c: Ctx, p: Proc, argv: seq<string>, i: nat)
    requires c.nonopt > 0 && i <= |argv| && ParseFrom(c, p, argv, i).Some?
    ensures ParseFrom(c, p, argv, i).value.log == c.log + Rest(argv[i..])
    ensures ParseFrom(c, p, argv, i).value.opts == c.opts && ParseFrom(c, p, argv, i).value.nonopt == c.nonopt
    decreases |argv| - i
  {
    if i < |argv| {
      var d := Delivery(argv[i], KeyNonOpt, false);
      BehindSeparator(CallProc(c, p, argv[i], KeyNonOpt, false).value, p, argv, i + 1);
      assert Rest(argv[i..]) == [d] + Rest(argv[i+1..]);
      Join(c.log, d, Rest(argv[i+1..]));
    } else {
      assert c.log + Rest(argv[i..]) == c.log;
    }
  }

  // ---------- the trailing separator ----------

  /** What the argument loop has collected when it ends. */
  function Collected(argv: seq<string>, p: Proc): Option<Ctx>
    requires argv != []
  {
    ParseFrom(Start(argv), p, argv, 1)
  }

  /** The separator is the last argument of what was collected. */
  predicate EndsInSeparator(c: Ctx) {
    c.nonopt > 0 && c.nonopt == |c.out|
  }

  /** A separator that is the last argument collected is removed exactly if no option of a group was
      kept.  Otherwise `-o` and its value go in, the position stored for the separator is not moved
      on, and the separator stays. */
  lemma SeparatorRemoved(argv: seq<string>, p: Proc)
    requires argv != [] && Collected(argv, p).Some? && EndsInSeparator(Collected(argv, p).value)
    ensures Parse(argv, p).Some?
    ensures var c, out := Collected(argv, p).value, Parse(argv, p).value.out;
      && c.out[|c.out|-1] == "--"
      && (out == c.out[..|c.out|-1] <==> KeptOptions(p, c.log) == [])
      && (KeptOptions(p, c.log) != [] ==> out == [c.out[0], "-o", c.opts.value] + c.out[1..] && out[|out|-1] == "--")
  {
    StartGood(argv, p);
    ParseGood(p, Start(argv), argv, 1);
    var c := Collected(argv, p).value;
    assert Settled(p, c.out[|c.out|-1], |c.out| - 1, SepOf(c));
    if c.opts.Some? { OptionsInFront(c); }
  }

  /** One input where it stays. */
  lemma SeparatorStays()
    ensures Parse(["p", "-oa", "--"], NoProc).Some? && Parse(["p", "-oa", "--"], NoProc).value.out == ["p", "-o", "a", "--"]
  {
    var argv := ["p", "-oa", "--"];
    hide Escape, Parts, CStr, AddOpt, Kept, ParseFrom, Parse, Group;
    assert "-oa"[2..] == "a";
    OneLetter('a');
    OneGroup(Start(argv), argv, 1, "a");
    Nothing("a");
    var c := Ctx(["p"], Some("a"), 0, [] + [Delivery("a", KeyOpt, true)]);
    var c' := Ctx(["p"] + ["--"], Some("a"), 2, [] + [Delivery("a", KeyOpt, true)]);
    LastSeparator(c, argv, 2);
    Finished(argv, c');
  }

  lemma Nothing(g: string)
    requires Escape(g) == g
    ensures AddOpt(Kept(None), g, true) == g && AddOpt(Some([]), g, true) == g
  {
  }

  /** A group in one argument, taken as a single option. */
  lemma OneGroup(c: Ctx, argv: seq<string>, i: nat, g: string)
    requires i < |argv| && c.nonopt == 0 && OpensGroup(argv[i]) && |argv[i]| > 2 && argv[i][2..] == g
    requires Parts(g, []) == [g] && CStr(g) == g
    ensures ParseFrom(c, NoProc, argv, i)
            == ParseFrom(c.(opts := Some(AddOpt(Kept(c.opts), g, true)), log := c.log + [Delivery(g, KeyOpt, true)]),
                         NoProc, argv, i + 1)
  {
    hide AddOpt, Kept, CStr, Parts;
    OnePart(c, g);
  }

  lemma LastSeparator(c: Ctx, argv: seq<string>, i: nat)
    requires i + 1 == |argv| && c.nonopt == 0 && argv[i] == "--"
    ensures ParseFrom(c, NoProc, argv, i) == Some(c.(out := c.out + ["--"], nonopt := |c.out| + 1))
  {
    var c' := c.(out := c.out + ["--"], nonopt := |c.out| + 1);
    assert ParseFrom(c', NoProc, argv, i + 1) == Some(c');
  }

  lemma Finished(argv: seq<string>, c: Ctx)
    requires argv != [] && ParseFrom(Start(argv), NoProc, argv, 1) == Some(c)
    requires c.out != [] && c.opts.Some? && c.nonopt <= |c.out|
    ensures Parse(argv, NoProc).Some?
    ensures Parse(argv, NoProc).value.out == [c.out[0], "-o", c.opts.value] + c.out[1..]
  {
    OptionsInFront(c);
  }

  lemma OneLetter(x: char)
    requires x != ',' && x != '\\' && x != NUL
    ensures Escape([x]) == [x] && Parts([x], []) == [[x]] && CStr([x]) == [x]
  {
    assert [x][..0] == [];
    assert [x][1..] == [];
    assert Parts([], [x]) == [[x]];
    assert [] + [x] == [x];
  }

  /** A group that is a single option. */
  lemma OnePart(c: Ctx, g: string)
    requires Parts(g, []) == [g] && CStr(g) == g
    ensures Group(c, NoProc, Parts(g, []))
            == Some(c.(opts := Some(AddOpt(Kept(c.opts), g, true)), log := c.log + [Delivery(g, KeyOpt, true)]))
  {
    assert [g][1..] == [];
  }

  // ---------- the same, read off the arguments ----------

  predicate OpensGroup(x: string) {
    |x| > 1 && x[0] == '-' && x[1] == 'o'
  }

  /** Where the parser meets the separator; |argv| if it does not. */
  function Separator(argv: seq<string>, i: nat): nat
    decreases if i <= |argv| then |argv| - i else 0
  {
    if i >= |argv| then |argv|
    else if OpensGroup(argv[i]) then Separator(argv, if |argv[i]| > 2 then i + 1 else i + 2)
    else if argv[i] == "--" then i
    else Separator(argv, i + 1)
  }

  lemma {:induction false} GroupTaken(c: Ctx, parts: seq<string>)
    ensures var r := Group(c, NoProc, parts);
      r.Some? && r.value.out == c.out && r.value.nonopt == c.nonopt && (parts != [] || c.opts.Some? ==> r.value.opts.Some?)
    decreases |parts|
  {
    if parts != [] { GroupTaken(CallProc(c, NoProc, CStr(parts[0]), KeyOpt, true).value, parts[1..]); }
  }

  ghost predicate GroupFrom(argv: seq<string>, i: nat) {
    exists j :: i <= j < |argv| - 1 && OpensGroup(argv[j])
  }

  /** What a parse without callback collects when the separator is the last argument. */
  ghost predicate Scanned(c: Ctx, argv: seq<string>, i: nat, r: Option<Ctx>)
    requires i <= |argv|
  {
    && r.Some? && EndsInSeparator(r.value)
    && (r.value.opts.Some? <==> c.opts.Some? || GroupFrom(argv, i))
    && (!GroupFrom(argv, i) ==> r.value.out == c.out + argv[i..])
  }

  lemma {:induction false} Scan(c: Ctx, argv: seq<string>, i: nat)
    requires i <= |argv| && Separator(argv, i) == |argv| - 1 && c.nonopt == 0 && c.out != []
    ensures Scanned(c, argv, i, ParseFrom(c, NoProc, argv, i))
    decreases |argv| - i
  {
    hide Parts, CStr, AddOpt, Escape;
    assert i < |argv|;
    var arg := argv[i];
    assert argv[i..] == [arg] + argv[i+1..];
    if OpensGroup(arg) {
      if |arg| == 2 { assert i + 1 < |argv|; }
      var g := Parts(if |arg| > 2 then arg[2..] else argv[i+1], []);
      GroupTaken(c, g);
      var i' := if |arg| > 2 then i + 1 else i + 2;
      Within(argv, i');
      Scan(Group(c, NoProc, g).value, argv, i');
      assert GroupFrom(argv, i);
    } else if arg == "--" {
      var c' := c.(out := c.out + [arg], nonopt := |c.out| + 1);
      assert i + 1 == |argv| && ParseFrom(c', NoProc, argv, i + 1) == Some(c');
      assert c.out + argv[i..] == c'.out;
    } else {
      Within(argv, i + 1);
      var key := if arg == [] || arg[0] != '-' then KeyNonOpt else KeyOpt;
      var c' := CallProc(c, NoProc, arg, key, false).value;
      Scan(c', argv, i + 1);
      ScanOn(c, c', argv, i, ParseFrom(c', NoProc, argv, i + 1));
    }
  }

  lemma Within(argv: seq<string>, i: nat)
    requires argv != [] && Separator(argv, i) == |argv| - 1
    ensures i < |argv|
  {
  }

  lemma ScanOn(c: Ctx, c': Ctx, argv: seq<string>, i: nat, r: Option<Ctx>)
    requires i < |argv| && !OpensGroup(argv[i]) && c'.out == c.out + [argv[i]] && c'.opts == c.opts
    requires Scanned(c', argv, i + 1, r)
    ensures Scanned(c, argv, i, r)
  {
    if GroupFrom(argv, i) {
      var j :| i <= j < |argv| - 1 && OpensGroup(argv[j]);
      assert j != i && GroupFrom(argv, i + 1);
    } else {
      assert !GroupFrom(argv, i + 1) by {
        if j :| i + 1 <= j < |argv| - 1 && OpensGroup(argv[j]) { assert GroupFrom(argv, i); }
      }
      assert c.out + [argv[i]] + argv[i+1..] == c.out + argv[i..];
    }
  }

  /** Without a callback, a separator that is the last argument is removed exactly if no argument in
      front of it begins with -o. */
  lemma TrailingSeparator(argv: seq<string>)
    requires argv != [] && Separator(argv, 1) == |argv| - 1
    ensures Collected(argv, NoProc).Some? && EndsInSeparator(Collected(argv, NoProc).value) && Parse(argv, NoProc).Some?
    ensures var c, out := Collected(argv, NoProc).value.out, Parse(argv, NoProc).value.out;
      && (out == c[..|c|-1] <==> forall j | 1 <= j < |argv| - 1 :: !OpensGroup(argv[j]))
      && (out == c[..|c|-1] ==> out == argv[..|argv|-1])
      && (out != c[..|c|-1] ==> out[|out|-1] == "--")
  {
    Within(argv, 1);
    Scan(Start(argv), argv, 1);
    SeparatorRemoved(argv, NoProc);
    StartGood(argv, NoProc);
    ParseGood(NoProc, Start(argv), argv, 1);
    var c := Collected(argv, NoProc).value;
    if forall j | 1 <= j < |argv| - 1 :: !OpensGroup(argv[j]) {
      assert !GroupFrom(argv, 1);
      assert c.out == [argv[0]] + argv[1..] == argv;
    } else {
      assert GroupFrom(argv, 1);
    }
  }

  // ---------- option text that is too long ----------

  function Many(n: nat): (r: string)
    ensures |r| == n && forall i | 0 <= i < n :: r[i] == 'a'
  {
    seq(n, i => 'a')
  }

  lemma {:induction false} ManyEscaped(n: nat)
    ensures Escape(Many(n)) == Many(n)
  {
    if n > 0 {
      assert Many(n)[..n-1] == Many(n - 1);
      ManyEscaped(n - 1);
    }
  }

  lemma {:induction false} ManyParts(n: nat, cur: string)
    ensures Parts(Many(n), cur) == [cur + Many(n)]
    decreases n
  {
    if n == 0 {
      assert cur + Many(0) == cur;
    } else {
      assert Many(n)[1..] == Many(n - 1);
      ManyParts(n - 1, cur + ['a']);
      assert (cur + ['a']) + Many(n - 1) == cur + Many(n);
    }
  }

  /** An option of 2^32 characters is lost when another one is kept behind it. */
  lemma LongOptionIsLost()
    ensures var argv := ["p", "-o" + Many(TWO_32), "-ob"];
      Parse(argv, NoProc).Some? && Parse(argv, NoProc).value.out == ["p", "-o", "b"]
  {
    var long := Many(TWO_32);
    var argv := ["p", "-o" + long, "-ob"];
    hide Escape, Parts, CStr, AddOpt, Many, Kept, ParseFrom, Parse, Group;
    ManyEscaped(TWO_32);
    ManyParts(TWO_32, []);
    assert [] + long == long;
    CStrWhole(long);
    assert ("-o" + long)[2..] == long && "-ob"[2..] == "b";
    OneGroup(Start(argv), argv, 1, long);
    Nothing(long);
    OneLetter('b');
    var log := [] + [Delivery(long, KeyOpt, true)];
    OneGroup(Ctx(["p"], Some(long), 0, log), argv, 2, "b");
    AllCut(long);
    Nothing("b");
    var c := Ctx(["p"], Some("b"), 0, log + [Delivery("b", KeyOpt, true)]);
    ParseEnds(c, argv);
    Finished(argv, c);
    assert c.out[1..] == [];
  }

  lemma AllCut(s: string)
    requires |s| == TWO_32
    ensures Kept(Some(s)) == Some([])
  {
  }

  lemma ParseEnds(c: Ctx, argv: seq<string>)
    ensures ParseFrom(c, NoProc, argv, |argv|) == Some(c)
  {
  }

  /** Room for every option escaped, with a comma. */
  function Room(ks: seq<string>): nat {
    if ks == [] then 0 else Room(ks[..|ks|-1]) + 2 * |ks[|ks|-1]| + 1
  }

  lemma {:induction false} PrintedInRoom(ks: seq<string>)
    ensures ks != [] ==> |Printed(ks).value| <= Room(ks)
    decreases |ks|
  {
    if ks != [] {
      PrintedInRoom(ks[..|ks|-1]);
      EscapeAtMostDoubles(ks[|ks|-1]);
    }
  }

  /** The characters of the arguments from i on, with their NULs. */
  function Chars(argv: seq<string>, i: nat): nat
    decreases if i <= |argv| then |argv| - i else 0
  {
    if i >= |argv| then 0 else |argv[i]| + 1 + Chars(argv, i + 1)
  }

  function PartsRoom(parts: seq<string>): nat {
    if parts == [] then 0 else 2 * |parts[0]| + 2 + PartsRoom(parts[1..])
  }

  lemma {:induction false} PartsInGroup(s: string, cur: string)
    ensures PartsRoom(Parts(s, cur)) <= 2 * |cur| + 2 * |s| + 2
    decreases |s|
  {
    if s != [] {
      if s[0] == ',' {
        PartsInGroup(s[1..], []);
        assert ([cur] + Parts(s[1..], []))[1..] == Parts(s[1..], []);
      }
      else if s[0] == '\\' && |s| > 1 {
        if Octal(s[1..]) { PartsInGroup(s[4..], cur + [OctalValue(s[1..])]); } else { PartsInGroup(s[2..], cur + [s[1]]); }
      } else { PartsInGroup(s[1..], cur + [s[0]]); }
    }
  }

  lemma OneMoreRoom(c: Ctx, p: Proc, arg: string, key: Key, iso: bool)
    requires CallProc(c, p, arg, key, iso).Some?
    ensures Room(KeptOptions(p, CallProc(c, p, arg, key, iso).value.log))
            <= Room(KeptOptions(p, c.log)) + if iso then 2 * |arg| + 1 else 0
  {
    var ks := KeptOptions(p, c.log);
    KeptSnoc(p, c.log, Delivery(arg, key, iso));
    assert (ks + [arg])[..|ks|] == ks;
    assert ks + [] == ks;
  }

  lemma {:induction false} GroupInRoom(c: Ctx, p: Proc, parts: seq<string>)
    requires Group(c, p, parts).Some?
    ensures Room(KeptOptions(p, Group(c, p, parts).value.log)) <= Room(KeptOptions(p, c.log)) + PartsRoom(parts)
    decreases |parts|
  {
    hide Room, KeptOptions, CStr;
    if parts != [] {
      OneMoreRoom(c, p, CStr(parts[0]), KeyOpt, true);
      GroupInRoom(CallProc(c, p, CStr(parts[0]), KeyOpt, true).value, p, parts[1..]);
      ShortC(parts[0]);
    }
  }

  lemma ShortC(s: string)
    ensures |CStr(s)| <= |s|
  {
  }

  lemma {:induction false} ParseInRoom(c: Ctx, p: Proc, argv: seq<string>, i: nat)
    requires ParseFrom(c, p, argv, i).Some?
    ensures Room(KeptOptions(p, ParseFrom(c, p, argv, i).value.log)) <= Room(KeptOptions(p, c.log)) + 2 * Chars(argv, i)
    decreases if i <= |argv| then |argv| - i else 0
  {
    hide Room, KeptOptions, Parts, PartsRoom, CallProc, Group;
    if i < |argv| {
      var arg := argv[i];
      if c.nonopt > 0 || arg == [] || arg[0] != '-' {
        OneMoreRoom(c, p, arg, KeyNonOpt, false);
        ParseInRoom(CallProc(c, p, arg, KeyNonOpt, false).value, p, argv, i + 1);
      } else if |arg| > 1 && arg[1] == 'o' {
        var g := if |arg| > 2 then arg[2..] else argv[i+1];
        PartsInGroup(g, []);
        GroupInRoom(c, p, Parts(g, []));
        ParseInRoom(Group(c, p, Parts(g, [])).value, p, argv, if |arg| > 2 then i + 1 else i + 2);
      } else if arg == "--" {
        ParseInRoom(c.(out := c.out + [arg], nonopt := |c.out| + 1), p, argv, i + 1);
      } else {
        OneMoreRoom(c, p, arg, KeyOpt, false);
        ParseInRoom(CallProc(c, p, arg, KeyOpt, false).value, p, argv, i + 1);
      }
    }
  }

  /** Arguments of less than 2^31 characters in all, NULs included, are never cut, so parsing them
      is stable whatever the callback does. */
  lemma OrdinaryVectorsAreStable(argv: seq<string>, p: Proc)
    requires argv != [] && Parse(argv, p).Some? && Chars(argv, 0) < TWO_31
    ensures Stable(p, Parse(argv, p).value)
  {
    hide Stable, Room, KeptOptions, Printed;
    var ks := KeptOptions(p, Parse(argv, p).value.log);
    NoRoom(p);
    ParseInRoom(Start(argv), p, argv, 1);
    RoomIsWhole(ks);
    ReparseIsStable(argv, p);
  }

  lemma RoomIsWhole(ks: seq<string>)
    requires Room(ks) < TWO_32
    ensures Whole(ks)
  {
    if |ks| > 1 {
      PrintedInRoom(ks);
      PrintedGrows(ks);
    }
  }

  lemma NoRoom(p: Proc)
    ensures Room(KeptOptions(p, [])) == 0
  {
  }
}
