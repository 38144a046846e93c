/**
 Which lines the initialiser's strips can deal with: a file built around any other line goes wrong.
 Lines that name several features, and lines with both markers of one.
 */
module StripShapes {
  import opened Base
  import opened GoStrings
  import opened TextLines
  import opened Stripper
  import opened StripPipeline

  // ----- lines that are not harmless ---------------------------------------------------------------

  /** No feature is named twice. */
  predicate OnceEach(rs: seq<Mark>) {
    rs == [] || ((forall m :: m in rs[1..] ==> m.name != rs[0].name) && OnceEach(rs[1..]))
  }

  /** So, in nested blocks, the ends come before the starts. */
  predicate EndsFirst(rs: seq<Mark>) { rs == [] || (if rs[0].Start? then OnlyStarts(rs) else EndsFirst(rs[1..])) }

  /** The features that a line closes, outermost first. */
  function Enders(rs: seq<Mark>): (r: seq<string>)
    ensures forall n :: n in r ==> End(n) in rs
  {
    if rs == [] || rs[0].Start? then [] else Enders(rs[1..]) + [rs[0].name]
  }

  /** The features that it opens, outermost first. */
  function Starters(rs: seq<Mark>): (r: seq<string>)
    ensures forall n :: n in r <==> Start(n) in rs
  {
    if rs == [] then [] else (if rs[0].Start? then [rs[0].name] else []) + Starters(rs[1..])
  }

  lemma {:induction false} StartersDistinct(rs: seq<Mark>)
    requires OnceEach(rs)
    ensures Distinct(Starters(rs))
  {
    if rs != [] {
      StartersDistinct(rs[1..]);
    }
  }

  lemma FreshHead(stack: seq<string>, n: string, rest: seq<string>)
    requires Distinct(stack + [n] + rest)
    ensures n !in stack
  {
    var all := stack + [n] + rest;
    assert forall i :: 0 <= i < |stack| ==> all[i] == stack[i] && all[i] != all[|stack|];
  }

  lemma {:induction false} StartersRun(stack: seq<string>, rs: seq<Mark>)
    requires OnlyStarts(rs) && Distinct(stack + Starters(rs))
    ensures AllFit(stack, rs) && NextStack(stack, rs) == stack + Starters(rs)
    decreases |rs|
  {
    if rs == [] {
      assert stack + Starters(rs) == stack;
    } else {
      var n := rs[0].name;
      assert stack + Starters(rs) == stack + [n] + Starters(rs[1..]);
      FreshHead(stack, n, Starters(rs[1..]));
      StartersRun(stack + [n], rs[1..]);
    }
  }

  /** From the blocks it closes, to the blocks it opens. */
  lemma {:induction false} LineRun(rs: seq<Mark>)
    requires OnceEach(rs) && EndsFirst(rs)
    ensures AllFit(Enders(rs), rs) && NextStack(Enders(rs), rs) == Starters(rs)
    decreases |rs|
  {
    if rs != [] {
      if rs[0].Start? {
        StartersDistinct(rs);
        assert [] + Starters(rs) == Starters(rs);
        StartersRun([], rs);
      } else {
        LineRun(rs[1..]);
        assert Next(Enders(rs), rs[0]) == Enders(rs[1..]);
      }
    }
  }

  lemma {:induction false} EndersOnly(rs: seq<Mark>)
    requires rs != [] && EndsFirst(rs) && Starters(rs) == []
    ensures Enders(rs) != [] && ClosesUpTo(rs, Enders(rs)[0])
  {
    if |rs| > 1 {
      EndersOnly(rs[1..]);
    }
  }

  lemma {:induction false} EndersAll(rs: seq<Mark>, n: string)
    requires EndsFirst(rs) && End(n) in rs
    ensures n in Enders(rs)
  {
    if rs[0].Start? {
      OnlyStartsHold(rs);
    } else if rs[0].name != n {
      EndersAll(rs[1..], n);
    }
  }

  lemma {:induction false} EndersDistinct(rs: seq<Mark>)
    requires OnceEach(rs) && EndsFirst(rs)
    ensures Distinct(Enders(rs))
    ensures forall n :: n in Enders(rs) ==> n !in Starters(rs)
  {
    if rs != [] && rs[0].End? {
      EndersDistinct(rs[1..]);
    }
  }

  // ----- lines with one marker ---------------------------------------------------------------------

  function Token(name: string, ending: string): string { "feature:" + name + ending }

  predicate IsEnding(ending: string) { ending == ":start" || ending == ":end" }

  /** Where the colons are. */
  lemma TokenColons(f: string, ending: string, k: nat)
    requires IsName(f) && IsEnding(ending) && 8 <= k < |Token(f, ending)|
    ensures Token(f, ending)[k] == ':' <==> k == 8 + |f|
  {
    if k < 8 + |f| {
      assert Token(f, ending)[k] == f[k - 8] && f[k - 8] in f;
    } else {
      assert Token(f, ending)[k] == ending[k - 8 - |f|];
    }
  }

  lemma TokenStarts(f: string, ending: string, name: string, ending': string, i: nat)
    requires IsName(f) && IsName(name) && IsEnding(ending) && IsEnding(ending')
    requires OccursAt(Token(f, ending), Token(name, ending'), i)
    ensures i == 0
  {
    var s := Token(f, ending);
    TokenParts(s, name, ending', i);
    assert s[i + 7] == s[i..i + 8][7] == ':';
    var j := i + 8 + |name|;
    assert s[j] == s[j..j + |ending'|][0] == ':';
    TokenColons(f, ending, j);
    if i > 0 {
      TokenColons(f, ending, i + 7);
    }
  }

  /** One marker's text holds no other marker. */
  lemma TokenAlone(f: string, ending: string, name: string, ending': string, i: nat)
    requires IsName(f) && IsName(name) && IsEnding(ending) && IsEnding(ending')
    requires OccursAt(Token(f, ending), Token(name, ending'), i)
    ensures name == f && ending' == ending
  {
    var s := Token(f, ending);
    TokenStarts(f, ending, name, ending', i);
    TokenParts(s, name, ending', 0);
    var j := 8 + |name|;
    assert s[j] == s[j..j + |ending'|][0] == ':';
    TokenColons(f, ending, j);
    assert s[8..8 + |f|] == f;
    assert s[j + 1] == s[j..j + |ending'|][1] == ending'[1] && s[j + 1] == ending[1];
  }

  lemma StartLine(f: string)
    requires IsName(f)
    ensures IsMarked(StartToken(f), [Start(f)])
  {
    var s := StartToken(f);
    assert OccursAt(s, s, 0);
    forall name | IsName(name) ensures (HasStart(s, name) <==> name == f) && !HasEnd(s, name) {
      if HasStart(s, name) {
        var i :| 0 <= i <= |s| && OccursAt(s, StartToken(name), i);
        TokenAlone(f, ":start", name, ":start", i);
      }
      if HasEnd(s, name) {
        var i :| 0 <= i <= |s| && OccursAt(s, EndToken(name), i);
        TokenAlone(f, ":start", name, ":end", i);
      }
    }
  }

  lemma EndLine(f: string)
    requires IsName(f)
    ensures IsMarked(EndToken(f), [End(f)])
  {
    var s := EndToken(f);
    assert OccursAt(s, s, 0);
    forall name | IsName(name) ensures (HasEnd(s, name) <==> name == f) && !HasStart(s, name) {
      if HasEnd(s, name) {
        var i :| 0 <= i <= |s| && OccursAt(s, EndToken(name), i);
        TokenAlone(f, ":end", name, ":end", i);
      }
      if HasStart(s, name) {
        var i :| 0 <= i <= |s| && OccursAt(s, StartToken(name), i);
        TokenAlone(f, ":end", name, ":start", i);
      }
    }
  }

  const TEXT := "x"

  lemma TextLine()
    ensures IsMarked(TEXT, []) && NotBlank(TEXT) && IsLine(TEXT) && NoResidual(TEXT)
  {
    assert TEXT[0] in TEXT;
    forall name ensures !HasStart(TEXT, name) && !HasEnd(TEXT, name) {
      assert |StartToken(name)| > 1 && |EndToken(name)| > 1;
    }
    SweepOfMarked(TEXT, []);
  }

  // ----- a file around a line ------------------------------------------------------------------------

  function Openings(names: seq<string>): (ls: seq<string>)
    ensures |ls| == |names| && forall i :: 0 <= i < |names| ==> ls[i] == StartToken(names[i])
  {
    seq(|names|, i requires 0 <= i < |names| => StartToken(names[i]))
  }

  function OpenMarks(names: seq<string>): (marks: seq<seq<Mark>>)
    ensures |marks| == |names| && forall i :: 0 <= i < |names| ==> marks[i] == [Start(names[i])]
  {
    seq(|names|, i requires 0 <= i < |names| => [Start(names[i])])
  }

  /** The innermost of them is closed first. */
  function Closings(names: seq<string>): (ls: seq<string>)
    ensures |ls| == |names| && forall i :: 0 <= i < |names| ==> ls[i] == EndToken(names[|names| - 1 - i])
  {
    seq(|names|, i requires 0 <= i < |names| => EndToken(names[|names| - 1 - i]))
  }

  function CloseMarks(names: seq<string>): (marks: seq<seq<Mark>>)
    ensures |marks| == |names| && forall i :: 0 <= i < |names| ==> marks[i] == [End(names[|names| - 1 - i])]
  {
    seq(|names|, i requires 0 <= i < |names| => [End(names[|names| - 1 - i])])
  }

  lemma OneMark(m: Mark, fs: set<string>, stack: seq<string>)
    requires m.name in fs
    ensures Picked([m], fs) == [m] && NextStack(stack, [m]) == Next(stack, m)
    ensures AllFit(stack, [m]) <==> Fits(stack, m)
  {
    assert [m][1..] == [];
  }

  lemma {:induction false} OpeningsNest(names: seq<string>, fs: set<string>, stack: seq<string>)
    requires (forall n :: n in names ==> IsName(n) && n in fs && n !in stack) && Distinct(names)
    ensures Nested(Openings(names), OpenMarks(names), fs, stack, stack + names)
    ensures Remaining(Openings(names), OpenMarks(names), fs, stack) == []
    decreases |names|
  {
    if names == [] {
      assert stack + names == stack;
    } else {
      var n := names[0];
      assert Openings(names)[1..] == Openings(names[1..]) && OpenMarks(names)[1..] == OpenMarks(names[1..]);
      assert stack + names == stack + [n] + names[1..];
      StartLine(n);
      OneMark(Start(n), fs, stack);
      OpeningsNest(names[1..], fs, stack + [n]);
    }
  }

  lemma {:induction false} ClosingsNest(names: seq<string>, fs: set<string>, stack: seq<string>)
    requires forall n :: n in names ==> IsName(n) && n in fs
    ensures Nested(Closings(names), CloseMarks(names), fs, stack + names, stack)
    ensures Remaining(Closings(names), CloseMarks(names), fs, stack + names) == []
    decreases |names|
  {
    if names == [] {
      assert stack + names == stack;
    } else {
      var n, rest := names[|names| - 1], names[..|names| - 1];
      assert Closings(names)[1..] == Closings(rest) && CloseMarks(names)[1..] == CloseMarks(rest);
      assert stack + names == stack + rest + [n];
      assert Next(stack + names, End(n)) == stack + rest;
      EndLine(n);
      OneMark(End(n), fs, stack + names);
      ClosingsNest(rest, fs, stack);
    }
  }

  /** What follows the line: its blocks are closed, and the outermost one holds a text at its end. */
  function Tail(names: seq<string>): seq<string> {
    if names == [] then [] else Closings(names[1..]) + ([TEXT] + Closings(names[..1]))
  }

  function TailMarks(names: seq<string>): seq<seq<Mark>> {
    if names == [] then [] else CloseMarks(names[1..]) + ([[]] + CloseMarks(names[..1]))
  }

  lemma TailNests(names: seq<string>, fs: set<string>)
    requires forall n :: n in names ==> IsName(n) && n in fs
    ensures Nested(Tail(names), TailMarks(names), fs, names, [])
    ensures Remaining(Tail(names), TailMarks(names), fs, names) == []
  {
    if names != [] {
      var outer := names[..1];
      ClosingsNest(names[1..], fs, outer);
      assert outer + names[1..] == names && [] + outer == outer;
      ClosingsNest(outer, fs, []);
      TextNests(fs, outer);
      JoinNested([TEXT], [[]], Closings(outer), CloseMarks(outer), fs, outer, outer, []);
      JoinNested(Closings(names[1..]), CloseMarks(names[1..]), [TEXT] + Closings(outer), [[]] + CloseMarks(outer), fs,
                 names, outer, []);
    }
  }

  lemma TextNests(fs: set<string>, stack: seq<string>)
    requires stack != []
    ensures Nested([TEXT], [[]], fs, stack, stack) && Remaining([TEXT], [[]], fs, stack) == []
  {
    TextLine();
    assert Picked([], fs) == [];
  }

  lemma JoinNested(a: seq<string>, marksA: seq<seq<Mark>>, b: seq<string>, marksB: seq<seq<Mark>>, fs: set<string>,
                   stack: seq<string>, mid: seq<string>, last: seq<string>)
    requires Nested(a, marksA, fs, stack, mid) && Nested(b, marksB, fs, mid, last)
    requires Remaining(a, marksA, fs, stack) == Remaining(b, marksB, fs, mid) == []
    ensures Nested(a + b, marksA + marksB, fs, stack, last) && Remaining(a + b, marksA + marksB, fs, stack) == []
  {
    NestedConcat(a, marksA, b, marksB, fs, stack, mid, last);
    RemainingConcat(a, marksA, b, marksB, fs, stack, mid);
  }

  /** The line with what it closes opened before it, one a line, and what it opens closed after it. */
  function Around(line: string, rs: seq<Mark>): seq<string> { Openings(Enders(rs)) + ([line] + Tail(Starters(rs))) }

  function AroundMarks(ms: seq<Mark>, rs: seq<Mark>): seq<seq<Mark>> {
    OpenMarks(Enders(rs)) + ([ms] + TailMarks(Starters(rs)))
  }

  lemma LineNests(line: string, ms: seq<Mark>, fs: set<string>, stack: seq<string>)
    requires IsMarked(line, ms) && ms != [] && AllFit(stack, Picked(ms, fs))
    ensures Nested([line], [ms], fs, stack, NextStack(stack, Picked(ms, fs)))
    ensures Remaining([line], [ms], fs, stack) == []
  {
  }

  lemma LineAndTail(line: string, ms: seq<Mark>, fs: set<string>, es: seq<string>, xs: seq<string>)
    requires IsMarked(line, ms) && ms != [] && AllFit(es, Picked(ms, fs)) && NextStack(es, Picked(ms, fs)) == xs
    requires forall n :: n in xs ==> IsName(n) && n in fs
    ensures Nested([line] + Tail(xs), [ms] + TailMarks(xs), fs, es, [])
    ensures Remaining([line] + Tail(xs), [ms] + TailMarks(xs), fs, es) == []
  {
    TailNests(xs, fs);
    LineNests(line, ms, fs, es);
    JoinNested([line], [ms], Tail(xs), TailMarks(xs), fs, es, xs, []);
  }

  lemma AroundNests(line: string, ms: seq<Mark>, fs: set<string>)
    requires IsMarked(line, ms) && ms != [] && OnceEach(Picked(ms, fs)) && EndsFirst(Picked(ms, fs))
    ensures var rs := Picked(ms, fs);
            && Nested(Around(line, rs), AroundMarks(ms, rs), fs, [], [])
            && Remaining(Around(line, rs), AroundMarks(ms, rs), fs, []) == []
  {
    var rs := Picked(ms, fs);
    var es, xs := Enders(rs), Starters(rs);
    LineRun(rs);
    EndersDistinct(rs);
    OpeningsNest(es, fs, []);
    assert [] + es == es;
    LineAndTail(line, ms, fs, es, xs);
    JoinNested(Openings(es), OpenMarks(es), [line] + Tail(xs), [ms] + TailMarks(xs), fs, [], es, []);
  }

  /** All its other lines have one marker or none. */
  lemma AroundIsSimple(ms: seq<Mark>, rs: seq<Mark>)
    ensures forall k :: k in AroundMarks(ms, rs) ==> k == ms || |k| <= 1
  {
    TailIsSimple(Starters(rs));
    forall k | k in AroundMarks(ms, rs) ensures k == ms || |k| <= 1 {
      assert k in OpenMarks(Enders(rs)) || k == ms || k in TailMarks(Starters(rs));
    }
  }

  lemma TailIsSimple(names: seq<string>)
    ensures forall k :: k in TailMarks(names) ==> |k| <= 1
  {
  }

  // ----- what the strips make of it -----------------------------------------------------------------

  predicate NoEnd(ls: seq<string>, f: string) { forall l :: l in ls ==> !HasEnd(l, f) }

  lemma {:induction false} NoEndStaysOpen(ls: seq<string>, f: string)
    requires NoEnd(ls, f)
    ensures OpenAfter(ls, f, true) && Outer(ls, f, true) == []
  {
    if ls != [] {
      NoEndStaysOpen(ls[1..], f);
    }
  }

  lemma {:induction false} OutsideAll(ls: seq<string>, f: string)
    requires NoStart(ls, f)
    ensures Outer(ls, f, false) == ls && !OpenAfter(ls, f, false)
  {
    if ls != [] {
      OutsideAll(ls[1..], f);
    }
  }

  lemma {:induction false} OuterConcat(a: seq<string>, b: seq<string>, f: string, open: bool)
    ensures Outer(a + b, f, open) == Outer(a, f, open) + Outer(b, f, OpenAfter(a, f, open))
    ensures OpenAfter(a + b, f, open) == OpenAfter(b, f, OpenAfter(a, f, open))
    decreases |a|
  {
    if a == [] {
      assert a + b == b;
    } else {
      FirstOfBoth(a, b);
      OuterConcat(a[1..], b, f, if open then !HasEnd(a[0], f) else HasStart(a[0], f));
    }
  }

  lemma {:induction false} StartWithoutEnd(ls: seq<string>, f: string)
    requires NoEnd(ls, f) && !NoStart(ls, f)
    ensures OpenAfter(ls, f, false)
  {
    if HasStart(ls[0], f) {
      NoEndStaysOpen(ls[1..], f);
    } else {
      StartWithoutEnd(ls[1..], f);
    }
  }

  /** Lines without a complete block: a strip changes nothing, or fails. */
  lemma {:induction false} Leftovers(ls: seq<string>, fs: seq<string>)
    requires forall f :: f in fs ==> NoStart(ls, f) || NoEnd(ls, f)
    ensures Passes(ls, fs) == if (forall f :: f in fs ==> NoStart(ls, f)) then Some(ls) else None
    decreases |fs|
  {
    if fs != [] {
      assert fs[0] in fs;
      if NoStart(ls, fs[0]) {
        OutsideAll(ls, fs[0]);
        Leftovers(ls, fs[1..]);
      } else {
        StartWithoutEnd(ls, fs[0]);
      }
    }
  }

  /** One block is removed, with the two lines around it. */
  lemma OneBlock(p: seq<string>, start: string, q: seq<string>, end: string, r: seq<string>, f: string)
    requires NoStart(p, f) && HasStart(start, f) && NoEnd(q, f) && HasEnd(end, f) && NoStart(r, f)
    ensures var ls := p + ([start] + (q + ([end] + r)));
            Outer(ls, f, false) == p + r && !OpenAfter(ls, f, false)
  {
    var rest := [end] + r;
    assert rest[1..] == r;
    OutsideAll(r, f);
    NoEndStaysOpen(q, f);
    OuterConcat(q, rest, f, true);
    var body := [start] + (q + rest);
    assert body[1..] == q + rest;
    OutsideAll(p, f);
    OuterConcat(p, body, f, false);
  }

  /** What is left of the file around a line: openings of `es`, texts, and closings of `xs`. */
  predicate IsLeft(ls: seq<string>, es: seq<string>, xs: seq<string>) {
    forall l :: l in ls ==>
      l == TEXT || (exists n :: n in es && l == StartToken(n)) || (exists n :: n in xs && l == EndToken(n))
  }

  lemma LeftMarks(ls: seq<string>, es: seq<string>, xs: seq<string>, f: string)
    requires IsLeft(ls, es, xs) && IsName(f) && forall n :: n in es || n in xs ==> IsName(n)
    ensures f !in es ==> NoStart(ls, f)
    ensures f !in xs ==> NoEnd(ls, f)
  {
    forall l | l in ls ensures (HasStart(l, f) ==> f in es) && (HasEnd(l, f) ==> f in xs) {
      if l == TEXT {
        TextLine();
      } else if n :| n in es && l == StartToken(n) {
        StartLine(n);
      } else {
        var n :| n in xs && l == EndToken(n);
        EndLine(n);
      }
    }
  }

  /** The file is not stripped right: a strip fails, or the text within the block stays. */
  ghost predicate IsWrong(ls: seq<string>, fs: seq<string>) {
    Passes(ls, fs).Some? ==> TEXT in Filter(Passes(ls, fs).value, NoResidual)
  }

  lemma LeftIsWrong(ls: seq<string>, es: seq<string>, xs: seq<string>, fs: seq<string>)
    requires IsLeft(ls, es, xs) && (forall n :: n in es ==> n !in xs) && forall n :: n in es || n in xs ==> IsName(n)
    requires forall f :: f in fs ==> IsName(f)
    requires TEXT in ls || exists n :: n in es && n in fs && StartToken(n) in ls
    ensures IsWrong(ls, fs)
  {
    forall f | f in fs ensures NoStart(ls, f) || NoEnd(ls, f) {
      LeftMarks(ls, es, xs, f);
    }
    Leftovers(ls, fs);
    TextLine();
    if TEXT !in ls {
      var n :| n in es && n in fs && StartToken(n) in ls;
      StartLine(n);
      assert !NoStart(ls, n);
    }
  }

  lemma OpeningsLeft(names: seq<string>, es: seq<string>, xs: seq<string>)
    requires forall n :: n in names ==> n in es
    ensures IsLeft(Openings(names), es, xs)
  {
    forall l | l in Openings(names) ensures exists n :: n in es && l == StartToken(n) {
      var i :| 0 <= i < |names| && Openings(names)[i] == l;
      assert names[i] in names;
    }
  }

  lemma ClosingsLeft(names: seq<string>, es: seq<string>, xs: seq<string>)
    requires forall n :: n in names ==> n in xs
    ensures IsLeft(Closings(names), es, xs)
  {
    forall l | l in Closings(names) ensures exists n :: n in xs && l == EndToken(n) {
      var i :| 0 <= i < |names| && Closings(names)[i] == l;
      assert names[|names| - 1 - i] in names;
    }
  }

  lemma LeftJoin(a: seq<string>, b: seq<string>, es: seq<string>, xs: seq<string>)
    requires IsLeft(a, es, xs) && IsLeft(b, es, xs)
    ensures IsLeft(a + b, es, xs)
  {
    assert forall l :: l in a + b ==> l in a || l in b;
  }

  lemma TailLeft(names: seq<string>, es: seq<string>)
    ensures IsLeft(Tail(names), es, names)
  {
    if names != [] {
      ClosingsLeft(names[1..], es, names);
      ClosingsLeft(names[..1], es, names);
      LeftJoin([TEXT], Closings(names[..1]), es, names);
      LeftJoin(Closings(names[1..]), [TEXT] + Closings(names[..1]), es, names);
    }
  }

  lemma OpeningsSplit(names: seq<string>, i: nat, rest: seq<string>)
    requires i < |names|
    ensures Openings(names) + rest
         == Openings(names[..i]) + ([StartToken(names[i])] + (Openings(names[i + 1..]) + rest))
  {
    assert Openings(names) == Openings(names[..i]) + [StartToken(names[i])] + Openings(names[i + 1..]);
  }

  lemma ClosingsSplit(names: seq<string>, i: nat, rest: seq<string>)
    requires i < |names|
    ensures Closings(names) + rest
         == Closings(names[i + 1..]) + ([EndToken(names[i])] + (Closings(names[..i]) + rest))
  {
    assert Closings(names) == Closings(names[i + 1..]) + [EndToken(names[i])] + Closings(names[..i]);
  }

  predicate AreNames(names: seq<string>) { forall n :: n in names ==> IsName(n) }

  lemma OpeningsMarks(names: seq<string>, f: string)
    requires AreNames(names) && IsName(f)
    ensures NoEnd(Openings(names), f) && (f !in names ==> NoStart(Openings(names), f))
  {
    OpeningsLeft(names, names, []);
    LeftMarks(Openings(names), names, [], f);
  }

  lemma ClosingsMarks(names: seq<string>, f: string)
    requires AreNames(names) && IsName(f)
    ensures NoStart(Closings(names), f) && (f !in names ==> NoEnd(Closings(names), f))
  {
    ClosingsLeft(names, [], names);
    LeftMarks(Closings(names), [], names, f);
  }

  lemma TailMarked(names: seq<string>, f: string)
    requires AreNames(names) && IsName(f)
    ensures NoStart(Tail(names), f)
  {
    TailLeft(names, []);
    LeftMarks(Tail(names), [], names, f);
  }

  /** The strip of a feature that the line closes takes what lies between its start and the line. */
  lemma EnderStrip(line: string, rs: seq<Mark>, i: nat)
    requires AreNames(Enders(rs)) && AreNames(Starters(rs)) && Distinct(Enders(rs))
    requires i < |Enders(rs)| && HasEnd(line, Enders(rs)[i])
    ensures var es, c := Enders(rs), Enders(rs)[i];
            && !OpenAfter(Around(line, rs), c, false)
            && Outer(Around(line, rs), c, false) == Openings(es[..i]) + Tail(Starters(rs))
  {
    var es, xs, c := Enders(rs), Starters(rs), Enders(rs)[i];
    assert c in es && forall k :: 0 <= k < i ==> es[..i][k] != es[i];
    OpeningsSplit(es, i, [line] + Tail(xs));
    OpeningsMarks(es[..i], c);
    OpeningsMarks(es[i + 1..], c);
    StartLine(c);
    TailMarked(xs, c);
    OneBlock(Openings(es[..i]), StartToken(c), Openings(es[i + 1..]), line, Tail(xs), c);
  }

  /** What the strip of a feature that the line opens leaves behind the line. */
  function AfterStarter(xs: seq<string>, i: nat): seq<string>
    requires i < |xs|
  {
    if i == 0 then [] else Closings(xs[1..i]) + ([TEXT] + Closings(xs[..1]))
  }

  lemma TailSplit(xs: seq<string>, i: nat)
    requires i < |xs|
    ensures Tail(xs) == (if i == 0 then Closings(xs[1..]) + [TEXT] else Closings(xs[i + 1..]))
                        + ([EndToken(xs[i])] + AfterStarter(xs, i))
  {
    if i == 0 {
      assert Closings(xs[..1]) == [EndToken(xs[0])];
      assert [EndToken(xs[0])] + AfterStarter(xs, 0) == [EndToken(xs[0])];
    } else {
      ClosingsSplit(xs[1..], i - 1, [TEXT] + Closings(xs[..1]));
      assert xs[1..][i..] == xs[i + 1..] && xs[1..][..i - 1] == xs[1..i];
    }
  }

  lemma AfterStarterLeft(xs: seq<string>, i: nat, es: seq<string>)
    requires i < |xs|
    ensures IsLeft(AfterStarter(xs, i), es, xs)
  {
    if i > 0 {
      ClosingsLeft(xs[1..i], es, xs);
      ClosingsLeft(xs[..1], es, xs);
      LeftJoin([TEXT], Closings(xs[..1]), es, xs);
      LeftJoin(Closings(xs[1..i]), [TEXT] + Closings(xs[..1]), es, xs);
    }
  }

  lemma InsideStarter(xs: seq<string>, i: nat)
    requires i < |xs| && Distinct(xs) && AreNames(xs)
    ensures NoEnd(if i == 0 then Closings(xs[1..]) + [TEXT] else Closings(xs[i + 1..]), xs[i])
  {
    var c := xs[i];
    assert c in xs && forall k :: i < k < |xs| ==> xs[k] != c;
    ClosingsMarks(xs[i + 1..], c);
    TextLine();
  }

  lemma StarterStrip(line: string, rs: seq<Mark>, i: nat)
    requires AreNames(Enders(rs)) && AreNames(Starters(rs)) && Distinct(Starters(rs))
    requires i < |Starters(rs)| && Starters(rs)[i] !in Enders(rs) && HasStart(line, Starters(rs)[i])
    ensures var c := Starters(rs)[i];
            && !OpenAfter(Around(line, rs), c, false)
            && Outer(Around(line, rs), c, false) == Openings(Enders(rs)) + AfterStarter(Starters(rs), i)
  {
    var es, xs, c := Enders(rs), Starters(rs), Starters(rs)[i];
    assert c in xs;
    var inside := if i == 0 then Closings(xs[1..]) + [TEXT] else Closings(xs[i + 1..]);
    TailSplit(xs, i);
    InsideStarter(xs, i);
    OpeningsMarks(es, c);
    EndLine(c);
    AfterStarterLeft(xs, i, []);
    LeftMarks(AfterStarter(xs, i), [], xs, c);
    OneBlock(Openings(es), line, inside, EndToken(c), AfterStarter(xs, i), c);
  }

  lemma FirstOpening(es: seq<string>)
    requires es != []
    ensures StartToken(es[0]) in Openings(es)
  {
    assert Openings(es)[0] == StartToken(es[0]);
  }

  /** The first strip of a feature on the line loses a marker of another one, or leaves its text. */
  lemma EnderGoesWrong(line: string, ms: seq<Mark>, fs: seq<string>)
    requires fs != [] && (forall f :: f in fs ==> IsName(f)) && IsMarked(line, ms) && End(fs[0]) in ms
    requires var rs := Picked(ms, ElementsOf(fs)); OnceEach(rs) && EndsFirst(rs) && !Leads(rs, fs[0])
    ensures IsWrong(Around(line, Picked(ms, ElementsOf(fs))), fs)
  {
    var rs := Picked(ms, ElementsOf(fs));
    var es, xs := Enders(rs), Starters(rs);
    EndersDistinct(rs);
    EndersAll(rs, fs[0]);
    var i :| 0 <= i < |es| && es[i] == fs[0];
    EnderStrip(line, rs, i);
    var left := Openings(es[..i]) + Tail(xs);
    OpeningsLeft(es[..i], es, xs);
    TailLeft(xs, es);
    LeftJoin(Openings(es[..i]), Tail(xs), es, xs);
    if i > 0 {
      assert es[0] in es && es[0] != es[i] && es[..i][0] == es[0];
      FirstOpening(es[..i]);
      assert StartToken(es[0]) in left && es[0] in fs[1..];
    } else {
      if xs == [] {
        EndersOnly(rs);
      }
      assert TEXT in Tail(xs);
    }
    LeftIsWrong(left, es, xs, fs[1..]);
  }

  lemma StarterGoesWrong(line: string, ms: seq<Mark>, fs: seq<string>)
    requires fs != [] && (forall f :: f in fs ==> IsName(f)) && IsMarked(line, ms) && Start(fs[0]) in ms
    requires var rs := Picked(ms, ElementsOf(fs)); OnceEach(rs) && EndsFirst(rs) && !Leads(rs, fs[0])
    ensures IsWrong(Around(line, Picked(ms, ElementsOf(fs))), fs)
  {
    var rs := Picked(ms, ElementsOf(fs));
    var es, xs := Enders(rs), Starters(rs);
    EndersDistinct(rs);
    StartersDistinct(rs);
    var i :| 0 <= i < |xs| && xs[i] == fs[0];
    StarterStrip(line, rs, i);
    var left := Openings(es) + AfterStarter(xs, i);
    OpeningsLeft(es, es, xs);
    AfterStarterLeft(xs, i, es);
    LeftJoin(Openings(es), AfterStarter(xs, i), es, xs);
    if es != [] {
      FirstOpening(es);
      assert es[0] in es && es[0] != fs[0] && StartToken(es[0]) in left && es[0] in fs[1..];
    } else {
      StartersOnly(rs);
      assert i > 0;
      assert TEXT in AfterStarter(xs, i);
    }
    LeftIsWrong(left, es, xs, fs[1..]);
  }

  lemma StartersOnly(rs: seq<Mark>)
    requires OnceEach(rs) && EndsFirst(rs) && rs != [] && Enders(rs) == []
    ensures Starters(rs) != [] && rs[0] == Start(Starters(rs)[0]) && OnlyStarts(rs)
  {
    LineRun(rs);
  }

  /** A line that is not harmless: the strips go wrong on the file around it. */
  lemma {:induction false} HarmfulGoesWrong(line: string, ms: seq<Mark>, fs: seq<string>)
    requires (forall f :: f in fs ==> IsName(f)) && IsMarked(line, ms) && !Harmless(ms, fs)
    requires OnceEach(Picked(ms, ElementsOf(fs))) && EndsFirst(Picked(ms, ElementsOf(fs)))
    ensures IsWrong(Around(line, Picked(ms, ElementsOf(fs))), fs)
    decreases |fs|
  {
    var rs := Picked(ms, ElementsOf(fs));
    if End(fs[0]) in ms {
      EnderGoesWrong(line, ms, fs);
    } else if Start(fs[0]) in ms {
      StarterGoesWrong(line, ms, fs);
    } else {
      MoreElements(fs);
      PickedOther(ms, fs[0], ElementsOf(fs[1..]));
      HarmfulGoesWrong(line, ms, fs[1..]);
      AroundUntouched(line, ms, rs, fs[0]);
      OutsideAll(Around(line, rs), fs[0]);
    }
  }

  lemma AroundUntouched(line: string, ms: seq<Mark>, rs: seq<Mark>, f: string)
    requires IsMarked(line, ms) && IsName(f) && !Named(ms, f) && forall m :: m in rs ==> m in ms
    requires EndsFirst(rs)
    ensures NoStart(Around(line, rs), f)
  {
    OpeningsMarks(Enders(rs), f);
    TailMarked(Starters(rs), f);
  }

  /** Any well-nested file of such lines, and of others with one marker at most, is stripped right. */
  ghost predicate AlwaysRight(ms: seq<Mark>, fs: seq<string>) {
    forall data, marks :: IsWellNested(data, marks, fs) && (forall k :: k in marks ==> k == ms || |k| <= 1) ==>
      IsRight(data, marks, fs)
  }

  lemma LeftAreLines(ls: seq<string>, es: seq<string>, xs: seq<string>)
    requires IsLeft(ls, es, xs) && AreNames(es) && AreNames(xs)
    ensures forall l :: l in ls ==> IsLine(l) && NotBlank(l)
  {
    TextLine();
    forall n | n in es || n in xs
      ensures IsLine(StartToken(n)) && NotBlank(StartToken(n)) && IsLine(EndToken(n)) && NotBlank(EndToken(n))
    {
      TokenIsLine(n);
    }
  }

  lemma AroundIsFile(line: string, ms: seq<Mark>, rs: seq<Mark>)
    requires IsLine(line) && IsMarked(line, ms) && ms != [] && AreNames(Enders(rs)) && AreNames(Starters(rs))
    ensures NonBlank(Lines(Unlines(Around(line, rs)))) == Around(line, rs)
  {
    var ls := Around(line, rs);
    OpeningsLeft(Enders(rs), Enders(rs), Starters(rs));
    TailLeft(Starters(rs), Enders(rs));
    LeftAreLines(Openings(Enders(rs)), Enders(rs), Starters(rs));
    LeftAreLines(Tail(Starters(rs)), Enders(rs), Starters(rs));
    MarkedIsNotBlank(line, ms);
    assert forall l :: l in ls ==> l in Openings(Enders(rs)) || l == line || l in Tail(Starters(rs));
    LinesOfUnlines(ls);
    FilterAll(ls, NotBlank);
  }

  lemma MarkedIsNotBlank(line: string, ms: seq<Mark>)
    requires IsMarked(line, ms) && ms != []
    ensures NotBlank(line)
  {
    assert ms[0] in ms && (ms[0] == Start(ms[0].name) || ms[0] == End(ms[0].name));
    if Blank(line) {
      BlankHasNoToken(line, ms[0].name);
    }
  }

  lemma TokenIsLine(name: string)
    requires IsName(name)
    ensures IsLine(StartToken(name)) && NotBlank(StartToken(name)) && IsLine(EndToken(name)) && NotBlank(EndToken(name))
  {
    assert NL !in name;
    assert StartToken(name)[0] in StartToken(name) && EndToken(name)[0] in EndToken(name);
  }

  /**
   Which lines with several markers the strips can deal with, for any line on which no stripped
   feature is named twice: files of such lines, and of others with one marker at most, are all
   stripped right if and only if the line is harmless.
   */
  lemma LineIff(line: string, ms: seq<Mark>, fs: seq<string>)
    requires (forall f :: f in fs ==> IsName(f)) && IsLine(line) && IsMarked(line, ms)
    requires OnceEach(Picked(ms, ElementsOf(fs))) && EndsFirst(Picked(ms, ElementsOf(fs)))
    ensures AlwaysRight(ms, fs) <==> Harmless(ms, fs)
  {
    if Harmless(ms, fs) {
      forall data, marks | IsWellNested(data, marks, fs) && (forall k :: k in marks ==> k == ms || |k| <= 1)
        ensures IsRight(data, marks, fs)
      {
        SimpleAreHarmless(marks, ms, fs);
        PipelineMeaning(data, marks, fs);
      }
    } else {
      HarmfulIsNotRight(line, ms, fs);
    }
  }

  lemma SimpleAreHarmless(marks: seq<seq<Mark>>, ms: seq<Mark>, fs: seq<string>)
    requires Harmless(ms, fs) && forall k :: k in marks ==> k == ms || |k| <= 1
    ensures AllHarmless(marks, fs)
  {
    forall k | k in marks ensures Harmless(k, fs) {
      if k != ms {
        PickedIsShort(k, ElementsOf(fs));
        OneMarkIsHarmless(k, fs);
      }
    }
  }

  lemma {:induction false} PickedIsShort(ms: seq<Mark>, fs: set<string>)
    ensures |Picked(ms, fs)| <= |ms|
  {
    if ms != [] {
      PickedIsShort(ms[1..], fs);
    }
  }

  lemma HarmfulIsNotRight(line: string, ms: seq<Mark>, fs: seq<string>)
    requires (forall f :: f in fs ==> IsName(f)) && IsLine(line) && IsMarked(line, ms) && !Harmless(ms, fs)
    requires OnceEach(Picked(ms, ElementsOf(fs))) && EndsFirst(Picked(ms, ElementsOf(fs)))
    ensures !AlwaysRight(ms, fs)
  {
    var rs := Picked(ms, ElementsOf(fs));
    var data, marks := Unlines(Around(line, rs)), AroundMarks(ms, rs);
    HarmfulIsNamed(ms, fs);
    AroundNests(line, ms, ElementsOf(fs));
    AroundIsSimple(ms, rs);
    AroundIsFile(line, ms, rs);
    HarmfulGoesWrong(line, ms, fs);
    SweptPasses(data, fs);
    assert IsWellNested(data, marks, fs) && !IsRight(data, marks, fs);
  }

  lemma {:induction false} HarmfulIsNamed(ms: seq<Mark>, fs: seq<string>)
    requires !Harmless(ms, fs)
    ensures ms != []
  {
    if !Named(ms, fs[0]) {
      HarmfulIsNamed(ms, fs[1..]);
    }
  }

  /** f is stripped, and not after g. */
  predicate IsBefore(f: string, g: string, fs: seq<string>) {
    fs != [] && (fs[0] == f || (fs[0] != g && IsBefore(f, g, fs[1..])))
  }

  /**
   What that means for two features on a line. An end and a start are harmless unless both
   features are stripped; two starts, or two ends, unless both are and the inner one is first.
   */
  lemma {:induction false} TwoMarks(f: string, g: string, fs: seq<string>)
    requires f != g
    ensures Harmless([End(f), Start(g)], fs) <==> !(f in fs && g in fs)
    ensures Harmless([Start(f), Start(g)], fs) <==> !(f in fs && g in fs) || IsBefore(f, g, fs)
    ensures Harmless([End(g), End(f)], fs) <==> !(f in fs && g in fs) || IsBefore(f, g, fs)
    decreases |fs|
  {
    if fs != [] {
      TwoLead(End(f), Start(g), fs);
      TwoLead(Start(f), Start(g), fs);
      TwoLead(End(g), End(f), fs);
      TwoMarks(f, g, fs[1..]);
    }
  }

  lemma TwoLead(a: Mark, b: Mark, fs: seq<string>)
    requires fs != [] && a.name != b.name
    ensures a.name != fs[0] && b.name != fs[0] ==> Harmless([a, b], fs) == Harmless([a, b], fs[1..])
    ensures a.name == fs[0] ==> (Harmless([a, b], fs) <==> b.name !in fs || (a.Start? && b.Start?))
    ensures b.name == fs[0] ==> (Harmless([a, b], fs) <==> a.name !in fs || (a.End? && b.End?))
  {
    var rs := Picked([a, b], ElementsOf(fs));
    TwoPicked(a, b, ElementsOf(fs));
    OneLeads(a, fs[0]);
    OneLeads(b, fs[0]);
    TwoShapes(a, b, fs[0]);
    assert a in [a, b] && b in [a, b];
    assert Named([a, b], fs[0]) <==> a.name == fs[0] || b.name == fs[0] by {
      assert a == Start(a.name) || a == End(a.name);
      assert b == Start(b.name) || b == End(b.name);
    }
    if a.name in fs && b.name in fs {
      assert rs == [a, b];
    } else if a.name in fs {
      assert rs == [a];
    } else if b.name in fs {
      assert rs == [b];
    }
  }

  lemma OneLeads(a: Mark, f: string)
    ensures OnlyStarts([a]) == a.Start? && (ClosesUpTo([a], f) <==> a == End(f)) && (Leads([a], f) <==> f == a.name)
  {
    assert [a][1..] == [];
  }

  lemma TwoShapes(a: Mark, b: Mark, f: string)
    ensures Leads([a, b], f) <==> (a == Start(f) && b.Start?) || (a.End? && b == End(f))
  {
    assert [a, b][1..] == [b];
    OneLeads(b, f);
  }

  lemma TwoPicked(a: Mark, b: Mark, fs: set<string>)
    ensures Picked([a, b], fs) == (if a.name in fs then [a] else []) + (if b.name in fs then [b] else [])
  {
    assert [a, b][1..] == [b] && [b][1..] == [];
    assert Picked([b], fs) == if b.name in fs then [b] else [];
  }

  // ----- lines with both markers of one feature -----------------------------------------------------

  predicate HasBoth(line: string, f: string) { HasStart(line, f) && HasEnd(line, f) }

  lemma {:induction false} OpenDropsMore(ls: seq<string>, f: string)
    requires forall l :: l in ls ==> !HasBoth(l, f)
    ensures |Outer(ls, f, true)| <= |Outer(ls, f, false)|
  {
    if ls != [] {
      assert !HasBoth(ls[0], f);
      OpenDropsMore(ls[1..], f);
    }
  }

  /**
   A line with both markers of a feature does one thing: it opens the block when none is open, and
   closes it when one is. So a block on one line stays open, and a line that ends one block and
   starts the next loses the second. What follows is treated as it would be with the markers on two
   lines if and only if the next line opens a block of the feature again.
   */
  lemma BothMarkersIff(a: seq<string>, line: string, b: seq<string>, f: string)
    requires HasBoth(line, f) && !OpenAfter(b, f, OpenAfter(a, f, false))
    requires forall l :: l in b ==> !HasBoth(l, f)
    ensures !OpenAfter(a + [line] + b, f, false)
            && Outer(a + [line] + b, f, false) == Outer(a, f, false) + Outer(b, f, OpenAfter(a, f, false))
       <==> b != [] && HasStart(b[0], f)
  {
    BothMarkersTurn(a, line, b, f);
    if b != [] {
      assert b[0] in b;
      OpenDropsMore(b[1..], f);
      assert !HasStart(b[0], f) ==> |Outer(b, f, true)| < |Outer(b, f, false)|;
    }
  }

  lemma BothMarkersTurn(a: seq<string>, line: string, b: seq<string>, f: string)
    requires HasBoth(line, f)
    ensures var open := OpenAfter(a, f, false);
            && Outer(a + [line] + b, f, false) == Outer(a, f, false) + Outer(b, f, !open)
            && OpenAfter(a + [line] + b, f, false) == OpenAfter(b, f, !open)
  {
    assert a + [line] + b == a + ([line] + b);
    OuterConcat(a, [line] + b, f, false);
    assert ([line] + b)[1..] == b;
  }

  /** A one-line block without a later end marker is reported as unclosed, closed as it looks. */
  lemma OneLineBlockFails(data: string, a: seq<string>, line: string, b: seq<string>, f: string)
    requires NonBlank(Lines(data)) == a + [line] + b && HasBoth(line, f) && !OpenAfter(a, f, false)
    requires NoEnd(b, f)
    ensures Stripped(data, f).None?
  {
    BothMarkersTurn(a, line, b, f);
    NoEndStaysOpen(b, f);
    StripOnNonBlank(data, f);
  }
}
