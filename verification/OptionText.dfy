/** Option strings of libs/libfuse/lib/fuse_opt.c: the escaping printer, and the decoder that
    takes a comma-separated group apart in place. */
module OptionText {
  import opened Wrappers

  const NUL: char := '\0'

  ghost predicate NulFree(s: string) {
    forall i | 0 <= i < |s| :: s[i] != NUL
  }

  /** What C sees of a buffer: everything up to the first NUL. */
  function CStr(s: string): (r: string)
    ensures |r| <= |s| && r == s[..|r|]
    ensures NulFree(r)
    ensures |r| < |s| ==> s[|r|] == NUL
  {
    if s == [] || s[0] == NUL then [] else [s[0]] + CStr(s[1..])
  }

  lemma CStrOf(s: string, n: nat)
    requires n < |s| && NulFree(s[..n]) && s[n] == NUL
    ensures CStr(s) == s[..n]
  {
    assert forall i | 0 <= i < n :: s[i] == s[..n][i];
  }

  lemma CStrWhole(s: string)
    requires NulFree(s)
    ensures CStr(s) == s
  {
  }

  // ---------- printing ----------

  function EscapeChar(c: char): string {
    if c == ',' || c == '\\' then ['\\', c] else [c]
  }

  function Escape(s: string): string {
    if s == [] then [] else Escape(s[..|s|-1]) + EscapeChar(s[|s|-1])
  }

  /** add_opt_common: the option string so far, with one more option behind a comma. */
  function AddOpt(opts: Option<string>, opt: string, esc: bool): string {
    var text := if esc then Escape(opt) else opt;
    if opts.None? || opts.value == [] then text else opts.value + [','] + text
  }

  lemma {:induction false} EscapeAtMostDoubles(s: string)
    ensures |s| <= |Escape(s)| <= 2 * |s|
  {
    if s != [] { EscapeAtMostDoubles(s[..|s|-1]); }
  }

  lemma {:induction false} EscapeNulFree(s: string)
    requires NulFree(s)
    ensures NulFree(Escape(s))
  {
    if s != [] { EscapeNulFree(s[..|s|-1]); }
  }

  /** The part of the text that add_opt_common keeps: it holds the length in an unsigned int. */
  function Kept(opts: Option<string>): Option<string> {
    if opts.None? then None else Some(opts.value[..|opts.value| % TWO_32])
  }

  /** The new option stands behind all of the text exactly when the length fits the int. */
  lemma AppendsExactly(opts: Option<string>, opt: string, esc: bool)
    ensures AddOpt(Kept(opts), opt, esc) == AddOpt(opts, opt, esc) <==> opts.None? || |opts.value| < TWO_32
  {
    if opts.Some? && |opts.value| >= TWO_32 {
      assert |opts.value| % TWO_32 < TWO_32;
      assert |AddOpt(Kept(opts), opt, esc)| < |AddOpt(opts, opt, esc)|;
    }
  }

  /** add_opt_common in memory: the buffer is reallocated to the size computed beforehand, and the
      write position never leaves it. */
  method AddOptCommon(old_: Option<array<char>>, opt: string, esc: bool) returns (d: array<char>)
    requires NulFree(opt)
    requires old_.Some? ==> old_.value.Length > 0 && CStr(old_.value[..]) < old_.value[..]
    ensures fresh(d)
    ensures var before := Kept(if old_.Some? then Some(CStr(old_.value[..])) else None);
      && CStr(d[..]) == AddOpt(before, opt, esc) && CStr(d[..]) < d[..]
      && d.Length == (if before.Some? then |before.value| else 0) + 1 + 2 * |opt| + 1
  {
    hide CStr;
    ghost var before := Kept(if old_.Some? then Some(CStr(old_.value[..])) else None);
    var oldlen := if old_.Some? then |CStr(old_.value[..])| % TWO_32 else 0;
    assert old_.Some? ==> oldlen <= |CStr(old_.value[..])| <= old_.value.Length;
    d := new char[oldlen + 1 + |opt| * 2 + 1];
    var w := 0;
    if oldlen > 0 {
      forall k | 0 <= k < oldlen { d[k] := old_.value[k]; }
      d[oldlen] := ',';
      w := oldlen + 1;
      assert d[..w] == before.value + [','];
    }
    w := PutText(d, w, opt, esc);
    ghost var text := d[..w];
    AddOptNulFree(before, opt, esc);
    assert text == AddOpt(before, opt, esc);
    d[w] := NUL;
    assert d[..][..w] == text;
    CStrOf(d[..], w);
    assert old_.Some? ==> old_.value[..] == old(old_.value[..]);
    assert CStr(d[..]) == text;
  }

  lemma AddOptNulFree(before: Option<string>, opt: string, esc: bool)
    requires NulFree(opt) && (before.Some? ==> NulFree(before.value))
    ensures NulFree(AddOpt(before, opt, esc))
  {
    EscapeNulFree(opt);
  }

  /** The copying loop of add_opt_common, from position w on. */
  method PutText(d: array<char>, w: nat, opt: string, esc: bool) returns (w': nat)
    requires w + 2 * |opt| <= d.Length
    modifies d
    ensures w <= w' <= w + 2 * |opt|
    ensures d[..w'] == old(d[..w]) + (if esc then Escape(opt) else opt)
  {
    hide Escape;
    w' := w;
    var i := 0;
    assert opt[..0] == [] && Escape([]) == [] by { NothingEscaped(); }
    while i < |opt|
      invariant 0 <= i <= |opt| && w <= w' <= w + 2 * i
      invariant d[..w'] == old(d[..w]) + (if esc then Escape(opt[..i]) else opt[..i])
    {
      EscapeSnoc(opt, i);
      ghost var before := d[..w'];
      if esc && (opt[i] == ',' || opt[i] == '\\') {
        d[w'] := '\\';
        w' := w' + 1;
        assert d[..w'] == before + ['\\'];
      }
      d[w'] := opt[i];
      w' := w' + 1;
      assert d[..w'] == before + (if esc then EscapeChar(opt[i]) else [opt[i]]);
      i := i + 1;
    }
    assert opt[..i] == opt;
  }

  lemma NothingEscaped()
    ensures Escape([]) == []
  {
  }

  lemma EscapeSnoc(opt: string, i: nat)
    requires i < |opt|
    ensures opt[..i+1] == opt[..i] + [opt[i]]
    ensures Escape(opt[..i+1]) == Escape(opt[..i]) + EscapeChar(opt[i])
  {
    assert opt[..i+1][..i] == opt[..i];
  }

  // ---------- taking apart ----------

  predicate IsOctal(c: char, top: char) {
    '0' <= c <= top
  }

  /** Three octal digits stand at the front, denoting a byte. */
  predicate Octal(s: string) {
    |s| >= 3 && IsOctal(s[0], '3') && IsOctal(s[1], '7') && IsOctal(s[2], '7')
  }

  function OctalValue(s: string): char
    requires Octal(s)
  {
    ((s[0] as int - '0' as int) * 64 + (s[1] as int - '0' as int) * 8 + (s[2] as int - '0' as int)) as char
  }

  /** The options of a group from here on, when `cur` was decoded of the current one. */
  function Parts(s: string, cur: string): (r: seq<string>)
    ensures r != []
  {
    if s == [] then [cur]
    else if s[0] == ',' then [cur] + Parts(s[1..], [])
    else if s[0] == '\\' && |s| > 1 then
      if Octal(s[1..]) then Parts(s[4..], cur + [OctalValue(s[1..])])
      else Parts(s[2..], cur + [s[1]])
    else Parts(s[1..], cur + [s[0]])
  }

  /** A backslash and the three octal digits of a byte stand for that byte. */
  lemma OctalDecodes(c: nat, tail: string, cur: string)
    requires c < 256
    ensures var d2, d1, d0 := ('0' as int + c / 64) as char, ('0' as int + c / 8 % 8) as char, ('0' as int + c % 8) as char;
      Parts(['\\', d2, d1, d0] + tail, cur) == Parts(tail, cur + [c as char])
  {
    var d2, d1, d0 := ('0' as int + c / 64) as char, ('0' as int + c / 8 % 8) as char, ('0' as int + c % 8) as char;
    var s := ['\\', d2, d1, d0] + tail;
    assert s[1..] == [d2, d1, d0] + tail && s[4..] == tail;
    assert c / 64 * 64 + c / 8 % 8 * 8 + c % 8 == c;
    assert Octal(s[1..]) && OctalValue(s[1..]) == c as char;
  }

  /** Any other character behind a backslash stands for itself. */
  lemma BackslashDecodes(x: char, tail: string, cur: string)
    requires !('0' <= x <= '3' && |tail| >= 2 && '0' <= tail[0] <= '7' && '0' <= tail[1] <= '7')
    ensures Parts(['\\', x] + tail, cur) == Parts(tail, cur + [x])
  {
    var s := ['\\', x] + tail;
    assert s[1..] == [x] + tail && s[2..] == tail;
  }

  /** Without a backslash a comma ends an option, and everything else is part of it; so is a
      backslash at the very end. */
  lemma PlainDecodes(x: char, tail: string, cur: string)
    ensures Parts([], cur) == [cur] && Parts(['\\'], cur) == [cur + ['\\']]
    ensures Parts([','] + tail, cur) == [cur] + Parts(tail, [])
    ensures x != ',' && x != '\\' ==> Parts([x] + tail, cur) == Parts(tail, cur + [x])
  {
    assert ([','] + tail)[1..] == tail && ([x] + tail)[1..] == tail;
    assert ['\\'][1..] == [];
  }

  lemma {:induction false} PartsOfEscape(k: string, cur: string, tail: string)
    ensures Parts(Escape(k) + tail, cur) == Parts(tail, cur + k)
    decreases |k|
  {
    if k == [] {
      assert Escape(k) + tail == tail && cur + k == cur;
    } else {
      var k', c := k[..|k|-1], k[|k|-1];
      PartsOfEscape(k', cur, EscapeChar(c) + tail);
      assert Escape(k) + tail == Escape(k') + (EscapeChar(c) + tail);
      assert k == k' + [c] && cur + k == (cur + k') + [c];
      var t := EscapeChar(c) + tail;
      if c == ',' || c == '\\' {
        assert t[2..] == tail && t[0] == '\\' && t[1] == c && !Octal(t[1..]);
      } else {
        assert t[1..] == tail;
      }
    }
  }

  /** Options joined by commas, each escaped. */
  function Joined(ks: seq<string>): string
    requires ks != []
  {
    if |ks| == 1 then Escape(ks[0]) else Escape(ks[0]) + ([','] + Joined(ks[1..]))
  }

  /** Taking a joined group apart gives back the list: every option, escaped or empty. */
  lemma {:induction false} PartsOfJoined(ks: seq<string>)
    requires ks != []
    ensures Parts(Joined(ks), []) == ks
    decreases |ks|
  {
    if |ks| == 1 {
      PartsOfEscape(ks[0], [], []);
      assert Escape(ks[0]) + [] == Escape(ks[0]) && [] + ks[0] == ks[0];
      assert Parts([], ks[0]) == [ks[0]] == ks;
    } else {
      var t := [','] + Joined(ks[1..]);
      PartsOfEscape(ks[0], [], t);
      assert [] + ks[0] == ks[0] && t[1..] == Joined(ks[1..]);
      PartsOfJoined(ks[1..]);
      assert ks == [ks[0]] + ks[1..];
    }
  }

  /** The options printed one after the other, starting from nothing. */
  function Printed(ks: seq<string>): Option<string> {
    if ks == [] then None else Some(AddOpt(Printed(ks[..|ks|-1]), ks[|ks|-1], true))
  }

  /** What printing keeps: empty options in front of the others vanish. */
  function Normal(ks: seq<string>): (r: seq<string>)
    ensures ks != [] ==> r != []
    ensures forall x :: x in r ==> x in ks
  {
    if |ks| > 1 && ks[0] == [] then Normal(ks[1..]) else ks
  }

  lemma {:induction false} JoinedSnoc(ks: seq<string>, k: string)
    requires ks != []
    ensures Joined(ks + [k]) == Joined(ks) + [','] + Escape(k)
    decreases |ks|
  {
    assert (ks + [k])[1..] == ks[1..] + [k];
    if |ks| > 1 {
      JoinedSnoc(ks[1..], k);
    } else {
      assert ks[1..] + [k] == [k];
    }
  }

  lemma {:induction false} JoinedEmpty(ks: seq<string>)
    requires ks != []
    ensures Joined(ks) == [] <==> ks == [[]]
  {
    EscapeAtMostDoubles(ks[0]);
  }

  lemma {:induction false} NormalSnoc(ks: seq<string>, k: string)
    requires ks != []
    ensures Normal(ks + [k]) == if Normal(ks) == [[]] then [k] else Normal(ks) + [k]
    decreases |ks|
  {
    assert (ks + [k])[1..] == ks[1..] + [k];
    if |ks| > 1 && ks[0] == [] {
      NormalSnoc(ks[1..], k);
    } else if ks == [[]] {
      assert Normal(ks[1..] + [k]) == [k] by { assert ks[1..] + [k] == [k]; }
    }
  }

  /** Printing a list is joining its normal form. */
  lemma {:induction false} PrintedIsJoined(ks: seq<string>)
    requires ks != []
    ensures Printed(ks) == Some(Joined(Normal(ks)))
    decreases |ks|
  {
    var ks', k := ks[..|ks|-1], ks[|ks|-1];
    assert ks == ks' + [k];
    if ks' == [] {
      assert Normal(ks) == [k];
    } else {
      PrintedIsJoined(ks');
      NormalSnoc(ks', k);
      JoinedEmpty(Normal(ks'));
      if Normal(ks') != [[]] { JoinedSnoc(Normal(ks'), k); }
    }
  }

  lemma {:induction false} NormalIdempotent(ks: seq<string>)
    ensures Normal(Normal(ks)) == Normal(ks)
    decreases |ks|
  {
    if |ks| > 1 && ks[0] == [] { NormalIdempotent(ks[1..]); }
  }

  /** Printing and taking apart are inverse up to leading empty options, and exactly inverse on
      lists that do not begin with one. */
  lemma PrintedRoundTrip(ks: seq<string>)
    requires ks != []
    ensures Printed(ks).Some? && Parts(Printed(ks).value, []) == Normal(ks)
    ensures Printed(Normal(ks)) == Printed(ks)
    ensures Parts(Printed(ks).value, []) == ks <==> |ks| == 1 || ks[0] != []
  {
    PrintedIsJoined(ks);
    PartsOfJoined(Normal(ks));
    NormalIdempotent(ks);
    PrintedIsJoined(Normal(ks));
    if |ks| > 1 && ks[0] == [] { NormalShorter(ks); }
  }

  lemma {:induction false} NormalShorter(ks: seq<string>)
    ensures |Normal(ks)| <= |ks| && (|ks| > 1 && ks[0] == [] ==> |Normal(ks)| < |ks|)
    decreases |ks|
  {
    if |ks| > 1 && ks[0] == [] { NormalShorter(ks[1..]); }
  }

  // ---------- printing with a length that does not fit ----------

  /** The options added one after the other by add_opt_common itself. */
  function CutPrinted(ks: seq<string>): (r: Option<string>)
    ensures r.Some? <==> ks != []
  {
    if ks == [] then None else Some(AddOpt(Kept(CutPrinted(ks[..|ks|-1])), ks[|ks|-1], true))
  }

  /** What stands in front of the last option fits an unsigned int. */
  predicate Whole(ks: seq<string>) {
    |ks| <= 1 || |Printed(ks[..|ks|-1]).value| < TWO_32
  }

  lemma PrintedGrows(ks: seq<string>)
    requires |ks| > 1
    ensures |Printed(ks[..|ks|-1]).value| <= |Printed(ks).value|
  {
  }

  lemma WholeFront(ks: seq<string>)
    requires Whole(ks) && |ks| > 1
    ensures Whole(ks[..|ks|-1])
  {
    var f := ks[..|ks|-1];
    if |f| > 1 { PrintedGrows(f); }
  }

  lemma KeptBelow(opts: Option<string>)
    requires opts.Some?
    ensures |Kept(opts).value| < TWO_32
  {
    assert 0 <= |opts.value| % TWO_32 < TWO_32;
  }

  lemma KeptAll(opts: Option<string>)
    requires opts.Some? && |opts.value| < TWO_32
    ensures Kept(opts) == opts
  {
    assert |opts.value| % TWO_32 == |opts.value| && opts.value[..|opts.value|] == opts.value;
  }

  /** Nothing is lost exactly if all but the last option fits; otherwise the text comes out shorter. */
  lemma {:induction false} CutExactly(ks: seq<string>)
    ensures CutPrinted(ks) == Printed(ks) <==> Whole(ks)
    ensures !Whole(ks) ==> |CutPrinted(ks).value| < |Printed(ks).value|
    decreases |ks|
  {
    if ks != [] {
      var f, k := ks[..|ks|-1], ks[|ks|-1];
      CutExactly(f);
      if Whole(ks) {
        if f != [] {
          WholeFront(ks);
          KeptAll(Printed(f));
        }
      } else {
        KeptBelow(CutPrinted(f));
      }
    }
  }

  lemma {:induction false} CutNulFree(ks: seq<string>)
    requires forall k :: k in ks ==> NulFree(k)
    ensures ks != [] ==> NulFree(CutPrinted(ks).value)
    decreases |ks|
  {
    if ks != [] {
      CutNulFree(ks[..|ks|-1]);
      AddOptNulFree(Kept(CutPrinted(ks[..|ks|-1])), ks[|ks|-1], true);
    }
  }

  /** Leading empty options make no difference to what fits. */
  lemma WholeNormal(ks: seq<string>)
    requires Whole(ks)
    ensures Whole(Normal(ks)) && CutPrinted(Normal(ks)) == CutPrinted(ks)
  {
    if |ks| > 1 && ks[0] == [] {
      NormalFront(ks);
      CutExactly(ks);
      CutExactly(Normal(ks));
      PrintedRoundTrip(ks);
    }
  }

  lemma NormalFront(ks: seq<string>)
    requires |ks| > 1 && Whole(ks)
    ensures Whole(Normal(ks))
  {
    hide Printed, Normal, Parts;
    var f, k, n := ks[..|ks|-1], ks[|ks|-1], Normal(ks);
    assert ks == f + [k];
    NormalSnoc(f, k);
    if Normal(f) != [[]] {
      assert n[..|n|-1] == Normal(f);
      PrintedRoundTrip(f);
    }
  }

  // ---------- a cut text never holds what was cut off ----------

  /** Taking apart ends on a backslash that escapes nothing. */
  predicate LoneEnd(s: string) {
    if s == [] then false
    else if s[0] == '\\' && |s| == 1 then true
    else if s[0] == '\\' then LoneEnd(if Octal(s[1..]) then s[4..] else s[2..])
    else LoneEnd(s[1..])
  }

  lemma {:induction false} LoneBehind(k: string, e: string)
    ensures LoneEnd(k + [','] + e) == LoneEnd(e)
    decreases |k|
  {
    var s := k + [','] + e;
    if k == [] {
      assert s[1..] == e;
    } else if k[0] == '\\' && |k| == 1 {
      assert s[2..] == e && !Octal(s[1..]);
    } else if k[0] == '\\' {
      assert s[1..] == k[1..] + [','] + e;
      if Octal(s[1..]) {
        assert |k| >= 4;
        assert s[4..] == k[4..] + [','] + e;
        LoneBehind(k[4..], e);
      } else {
        assert s[2..] == k[2..] + [','] + e;
        LoneBehind(k[2..], e);
      }
    } else {
      assert s[1..] == k[1..] + [','] + e;
      LoneBehind(k[1..], e);
    }
  }

  lemma {:induction false} LoneEscape(k: string, e: string)
    requires !LoneEnd(e)
    ensures !LoneEnd(Escape(k) + e)
    decreases |k|
  {
    hide LoneEnd, EscapeChar;
    if k == [] {
      assert Escape(k) + e == e;
    } else {
      var f, c := k[..|k|-1], k[|k|-1];
      LoneChar(c, e);
      LoneEscape(f, EscapeChar(c) + e);
      assert Escape(k) + e == Escape(f) + (EscapeChar(c) + e);
    }
  }

  lemma LoneChar(c: char, e: string)
    requires !LoneEnd(e)
    ensures !LoneEnd(EscapeChar(c) + e)
  {
    var t := EscapeChar(c) + e;
    if c == ',' || c == '\\' {
      assert t[0] == '\\' && t[1] == c && t[2..] == e && !Octal(t[1..]);
    } else {
      assert t[1..] == e;
    }
  }

  lemma CutEnds(ks: seq<string>)
    requires ks != []
    ensures !LoneEnd(CutPrinted(ks).value)
  {
    var before, k := Kept(CutPrinted(ks[..|ks|-1])), ks[|ks|-1];
    LoneEscape(k, []);
    assert Escape(k) + [] == Escape(k);
    if before.Some? && before.value != [] { LoneBehind(before.value, Escape(k)); }
  }

  /** What C sees of each part. */
  function Seen(parts: seq<string>): (r: seq<string>)
    ensures |r| == |parts|
  {
    if parts == [] then [] else [CStr(parts[0])] + Seen(parts[1..])
  }

  lemma {:induction false} EscapeFront(s: string, n: nat)
    requires n <= |s|
    ensures |Escape(s[..n])| <= |Escape(s)|
    decreases |s|
  {
    if n < |s| {
      EscapeFront(s[..|s|-1], n);
      assert s[..|s|-1][..n] == s[..n];
    } else {
      assert s[..n] == s;
    }
  }

  lemma EscapeLonger(cur: string, c: char)
    ensures |Escape(cur + [c])| <= |Escape(cur)| + 2
    ensures c != ',' && c != '\\' ==> |Escape(cur + [c])| == |Escape(cur)| + 1
  {
    assert (cur + [c])[..|cur|] == cur;
  }

  /** Joining what was taken apart gives no more text than there was. */
  lemma {:induction false} PartsFit(s: string, cur: string)
    requires !LoneEnd(s)
    ensures |Joined(Seen(Parts(s, cur)))| <= |Escape(cur)| + |s|
    decreases |s|
  {
    if s == [] {
      assert Seen([cur]) == [CStr(cur)];
      EscapeFront(cur, |CStr(cur)|);
    } else if s[0] == ',' {
      var rest := Parts(s[1..], []);
      assert Parts(s, cur) == [cur] + rest && ([cur] + rest)[1..] == rest;
      PartsFit(s[1..], []);
      EscapeFront(cur, |CStr(cur)|);
      assert Seen([cur] + rest)[1..] == Seen(rest);
    } else if s[0] == '\\' {
      if Octal(s[1..]) {
        EscapeLonger(cur, OctalValue(s[1..]));
        PartsFit(s[4..], cur + [OctalValue(s[1..])]);
      } else {
        EscapeLonger(cur, s[1]);
        PartsFit(s[2..], cur + [s[1]]);
      }
    } else {
      EscapeLonger(cur, s[0]);
      PartsFit(s[1..], cur + [s[0]]);
    }
  }

  /** The text that was printed holds the options exactly if nothing was cut. */
  lemma HoldsExactly(ks: seq<string>)
    requires ks != [] && forall k :: k in ks ==> NulFree(k)
    ensures Seen(Parts(CutPrinted(ks).value, [])) == Normal(ks) <==> Whole(ks)
  {
    CutExactly(ks);
    if Whole(ks) {
      PrintedRoundTrip(ks);
      SeenWhole(Normal(ks));
    } else {
      CutEnds(ks);
      PartsFit(CutPrinted(ks).value, []);
      PrintedIsJoined(ks);
    }
  }

  lemma {:induction false} SeenWhole(ks: seq<string>)
    requires forall k :: k in ks ==> NulFree(k)
    ensures Seen(ks) == ks
    decreases |ks|
  {
    if ks != [] {
      CStrWhole(ks[0]);
      SeenWhole(ks[1..]);
    }
  }
}
