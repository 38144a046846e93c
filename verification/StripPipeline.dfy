/**
 The initialiser's strips one after another: what the passes over the chosen features and the
 final sweep leave of a file whose lines may carry any number of markers.
 */
module StripPipeline {
  import opened Base
  import opened GoStrings
  import opened TextLines
  import opened Stripper

  // ----- marked lines ---------------------------------------------------------------------------

  datatype Mark = Start(name: string) | End(name: string)

  /** The line holds exactly these markers, for every feature name there could be. */
  ghost predicate IsMarked(line: string, ms: seq<Mark>) {
    && (forall m :: m in ms ==> IsName(m.name))
    && forall name :: IsName(name) ==>
         && (HasStart(line, name) <==> Start(name) in ms)
         && (HasEnd(line, name) <==> End(name) in ms)
  }

  predicate Named(ms: seq<Mark>, f: string) { Start(f) in ms || End(f) in ms }

  /** The markers of the features in `fs`. */
  function Picked(ms: seq<Mark>, fs: set<string>): (r: seq<Mark>)
    ensures forall m :: m in r <==> m in ms && m.name in fs
  {
    if ms == [] then []
    else (if ms[0].name in fs then [ms[0]] else []) + Picked(ms[1..], fs)
  }

  lemma {:induction false} PickedOther(ms: seq<Mark>, f: string, fs: set<string>)
    requires !Named(ms, f)
    ensures Picked(ms, fs + {f}) == Picked(ms, fs)
  {
    if ms != [] {
      assert ms[0] in ms;
      PickedOther(ms[1..], f, fs);
    }
  }

  // ----- nested blocks --------------------------------------------------------------------------

  /** The features open after a marker, outermost first. */
  function Next(stack: seq<string>, m: Mark): seq<string> {
    match m
    case Start(n) => stack + [n]
    case End(_) => if stack == [] then [] else stack[..|stack| - 1]
  }

  /** A marker opens a feature that is not open, or closes the innermost one. */
  predicate Fits(stack: seq<string>, m: Mark) {
    match m
    case Start(n) => n !in stack
    case End(n) => stack != [] && stack[|stack| - 1] == n
  }

  function NextStack(stack: seq<string>, ms: seq<Mark>): seq<string>
    decreases |ms|
  {
    if ms == [] then stack else NextStack(Next(stack, ms[0]), ms[1..])
  }

  predicate AllFit(stack: seq<string>, ms: seq<Mark>)
    decreases |ms|
  {
    ms == [] || (Fits(stack, ms[0]) && AllFit(Next(stack, ms[0]), ms[1..]))
  }

  /**
   The lines have these markers. Looking only at the features in `fs`, blocks are closed innermost
   first and none is opened while one of the same feature is open. The features open before the
   lines are those in `stack`, and after them those in `last`.
   */
  ghost predicate Nested(ls: seq<string>, marks: seq<seq<Mark>>, fs: set<string>, stack: seq<string>,
                         last: seq<string>)
    decreases |ls|
  {
    |marks| == |ls| &&
    if ls == [] then stack == last
    else
      && IsMarked(ls[0], marks[0]) && AllFit(stack, Picked(marks[0], fs))
      && Nested(ls[1..], marks[1..], fs, NextStack(stack, Picked(marks[0], fs)), last)
  }

  /** The unmarked lines that are in no block of a feature in `fs`. */
  function Remaining(ls: seq<string>, marks: seq<seq<Mark>>, fs: set<string>, stack: seq<string>): seq<string>
    requires |marks| == |ls|
    decreases |ls|
  {
    if ls == [] then []
    else (if marks[0] == [] && stack == [] then [ls[0]] else [])
         + Remaining(ls[1..], marks[1..], fs, NextStack(stack, Picked(marks[0], fs)))
  }

  lemma {:induction false} NestedConcat(a: seq<string>, marksA: seq<seq<Mark>>, b: seq<string>,
                                        marksB: seq<seq<Mark>>, fs: set<string>, stack: seq<string>,
                                        mid: seq<string>, last: seq<string>)
    requires Nested(a, marksA, fs, stack, mid) && Nested(b, marksB, fs, mid, last)
    ensures Nested(a + b, marksA + marksB, fs, stack, last)
    decreases |a|
  {
    if a == [] {
      assert a + b == b && marksA + marksB == marksB;
    } else {
      FirstOfBoth(a, b);
      FirstOfBoth(marksA, marksB);
      NestedConcat(a[1..], marksA[1..], b, marksB, fs, NextStack(stack, Picked(marksA[0], fs)), mid, last);
    }
  }

  lemma {:induction false} RemainingConcat(a: seq<string>, marksA: seq<seq<Mark>>, b: seq<string>,
                                           marksB: seq<seq<Mark>>, fs: set<string>, stack: seq<string>,
                                           mid: seq<string>)
    requires Nested(a, marksA, fs, stack, mid) && |marksB| == |b|
    ensures Remaining(a + b, marksA + marksB, fs, stack)
         == Remaining(a, marksA, fs, stack) + Remaining(b, marksB, fs, mid)
    decreases |a|
  {
    if a == [] {
      assert a + b == b && marksA + marksB == marksB;
    } else {
      FirstOfBoth(a, b);
      FirstOfBoth(marksA, marksB);
      RemainingConcat(a[1..], marksA[1..], b, marksB, fs, NextStack(stack, Picked(marksA[0], fs)), mid);
    }
  }

  lemma FirstOfBoth<T>(a: seq<T>, b: seq<T>)
    requires a != []
    ensures (a + b)[0] == a[0] && (a + b)[1..] == a[1..] + b
  {
  }

  /** The features open around the outermost block of f, or all of them when it is not open. */
  function Below(stack: seq<string>, f: string): seq<string> {
    if stack == [] then []
    else if stack[0] == f then []
    else [stack[0]] + Below(stack[1..], f)
  }

  lemma {:induction false} BelowFacts(stack: seq<string>, f: string)
    ensures f !in Below(stack, f)
    ensures f !in stack ==> Below(stack, f) == stack
    ensures forall n :: n in Below(stack, f) ==> n in stack
  {
    if stack != [] {
      BelowFacts(stack[1..], f);
    }
  }

  lemma {:induction false} BelowSnoc(stack: seq<string>, f: string, n: string)
    ensures Below(stack + [n], f) == if f in stack || n == f then Below(stack, f) else stack + [n]
  {
    if stack == [] {
      assert stack + [n] == [n] && [n][1..] == [];
    } else {
      assert (stack + [n])[1..] == stack[1..] + [n];
      BelowSnoc(stack[1..], f, n);
    }
  }

  predicate Distinct(stack: seq<string>) { forall i, j :: 0 <= i < j < |stack| ==> stack[i] != stack[j] }

  /** How one marker changes what is open around f's block. */
  lemma StackStep(stack: seq<string>, m: Mark, f: string)
    requires Distinct(stack) && Fits(stack, m)
    ensures var next := Next(stack, m);
            && Distinct(next)
            && (f in next <==> if f in stack then m != End(f) else m == Start(f))
            && Below(next, f) == (if f in stack || m == Start(f) then Below(stack, f) else next)
  {
    BelowFacts(stack, f);
    BelowFacts(Next(stack, m), f);
    match m
    case Start(n) =>
      BelowSnoc(stack, f, n);
    case End(n) =>
      var rest := stack[..|stack| - 1];
      assert stack == rest + [n];
      BelowSnoc(rest, f, n);
      BelowFacts(rest, f);
      assert forall i :: 0 <= i < |rest| ==> rest[i] == stack[i] && stack[i] != stack[|stack| - 1];
  }

  // ----- lines that every strip order can deal with ---------------------------------------------

  predicate OnlyStarts(rs: seq<Mark>) { rs == [] || (rs[0].Start? && OnlyStarts(rs[1..])) }

  /** All markers close, the last one f's. */
  predicate ClosesUpTo(rs: seq<Mark>, f: string) {
    rs != [] && rs[0].End? && if |rs| == 1 then rs[0] == End(f) else ClosesUpTo(rs[1..], f)
  }

  /** All markers open and f's is the outermost, or all close and f's is the outermost. */
  predicate Leads(rs: seq<Mark>, f: string) {
    (rs != [] && rs[0] == Start(f) && OnlyStarts(rs)) || ClosesUpTo(rs, f)
  }

  /**
   Of the features that are stripped, the line names none, or it only opens or only closes some,
   and the outermost of these is the first one to be stripped.
   */
  predicate Harmless(ms: seq<Mark>, fs: seq<string>)
    decreases |fs|
  {
    fs == [] ||
    if Named(ms, fs[0]) then Leads(Picked(ms, ElementsOf(fs)), fs[0]) else Harmless(ms, fs[1..])
  }

  predicate AllHarmless(marks: seq<seq<Mark>>, fs: seq<string>) { forall ms :: ms in marks ==> Harmless(ms, fs) }

  function ElementsOf(fs: seq<string>): set<string> { set f | f in fs }

  lemma MoreElements(fs: seq<string>)
    requires fs != []
    ensures ElementsOf(fs) == ElementsOf(fs[1..]) + {fs[0]}
  {
  }

  lemma {:induction false} OnlyStartsHold(rs: seq<Mark>)
    requires OnlyStarts(rs)
    ensures forall m :: m in rs ==> m.Start?
  {
    if rs != [] {
      OnlyStartsHold(rs[1..]);
    }
  }

  lemma {:induction false} ClosesUpToHolds(rs: seq<Mark>, f: string)
    requires ClosesUpTo(rs, f)
    ensures End(f) in rs && forall m :: m in rs ==> m.End?
  {
    if |rs| > 1 {
      ClosesUpToHolds(rs[1..], f);
    }
  }

  /** A line without f's markers leaves f's block open or closed as it was. */
  lemma {:induction false} OtherMarks(stack: seq<string>, rs: seq<Mark>, f: string)
    requires Distinct(stack) && AllFit(stack, rs) && !Named(rs, f)
    ensures var next := NextStack(stack, rs);
            && Distinct(next) && (f in next <==> f in stack)
            && Below(next, f) == (if f in stack then Below(stack, f) else next)
    decreases |rs|
  {
    BelowFacts(stack, f);
    if rs != [] {
      StackStep(stack, rs[0], f);
      assert rs[0] in rs;
      OtherMarks(Next(stack, rs[0]), rs[1..], f);
    }
  }

  /** More features opened inside f's block. */
  lemma {:induction false} InnerStarts(stack: seq<string>, rs: seq<Mark>, f: string)
    requires Distinct(stack) && AllFit(stack, rs) && f in stack && OnlyStarts(rs)
    ensures var next := NextStack(stack, rs);
            Distinct(next) && f in next && Below(next, f) == Below(stack, f)
    decreases |rs|
  {
    if rs != [] {
      StackStep(stack, rs[0], f);
      InnerStarts(Next(stack, rs[0]), rs[1..], f);
    }
  }

  /** The innermost block is closed. */
  lemma LastEnd(stack: seq<string>, f: string)
    requires Distinct(stack) && Fits(stack, End(f))
    ensures var next := Next(stack, End(f));
            Distinct(next) && f in stack && f !in next && next == Below(stack, f)
  {
    var next := Next(stack, End(f));
    StackStep(stack, End(f), f);
    BelowFacts(next, f);
    assert Below(next, f) == next;
  }

  /** Features closed up to f's block. */
  lemma {:induction false} EndsUpTo(stack: seq<string>, rs: seq<Mark>, f: string)
    requires Distinct(stack) && AllFit(stack, rs) && ClosesUpTo(rs, f)
    ensures var next := NextStack(stack, rs);
            Distinct(next) && f in stack && f !in next && next == Below(stack, f)
    decreases |rs|
  {
    if |rs| == 1 {
      assert rs[1..] == [];
      LastEnd(stack, f);
    } else {
      StackStep(stack, rs[0], f);
      EndsUpTo(Next(stack, rs[0]), rs[1..], f);
    }
  }

  /** How a line changes what is open around f's block, when f is the next feature to be stripped. */
  lemma LineStep(stack: seq<string>, ms: seq<Mark>, f: string, fs: set<string>)
    requires f in fs && Distinct(stack) && AllFit(stack, Picked(ms, fs)) && (Named(ms, f) ==> Leads(Picked(ms, fs), f))
    ensures var next := NextStack(stack, Picked(ms, fs));
            && Distinct(next)
            && (f in next <==> if f in stack then End(f) !in ms else Start(f) in ms)
            && Below(next, f) == (if f in stack || Start(f) in ms then Below(stack, f) else next)
    ensures f !in stack ==> End(f) !in ms
  {
    var rs := Picked(ms, fs);
    if !Named(ms, f) {
      OtherMarks(stack, rs, f);
    } else if rs[0] == Start(f) {
      StackStep(stack, rs[0], f);
      InnerStarts(Next(stack, rs[0]), rs[1..], f);
      OnlyStartsHold(rs);
    } else {
      EndsUpTo(stack, rs, f);
      BelowFacts(NextStack(stack, rs), f);
      BelowFacts(stack, f);
      ClosesUpToHolds(rs, f);
    }
  }

  /** The markers of the lines that a strip leaves. */
  function OuterMarks(marks: seq<seq<Mark>>, f: string, open: bool): seq<seq<Mark>> {
    if marks == [] then []
    else if open then OuterMarks(marks[1..], f, End(f) !in marks[0])
    else if Start(f) in marks[0] then OuterMarks(marks[1..], f, true)
    else [marks[0]] + OuterMarks(marks[1..], f, false)
  }

  predicate AllLead(marks: seq<seq<Mark>>, f: string, fs: set<string>) {
    forall ms :: ms in marks && Named(ms, f) ==> Leads(Picked(ms, fs), f)
  }

  /**
   Stripping one feature: its last block is closed, the markers of the further features are well
   nested in the rest, and what then remains for these is what remained for all of them.
   */
  lemma {:induction false} StripNested(ls: seq<string>, marks: seq<seq<Mark>>, stack: seq<string>, f: string,
                                       fs: set<string>)
    requires IsName(f) && Nested(ls, marks, fs + {f}, stack, []) && Distinct(stack) && AllLead(marks, f, fs + {f})
    ensures !OpenAfter(ls, f, f in stack)
    ensures var out, outMarks := Outer(ls, f, f in stack), OuterMarks(marks, f, f in stack);
            && Nested(out, outMarks, fs, Below(stack, f), [])
            && Remaining(out, outMarks, fs, Below(stack, f)) == Remaining(ls, marks, fs + {f}, stack)
            && forall ms :: ms in outMarks ==> ms in marks && !Named(ms, f)
    decreases |ls|
  {
    BelowFacts(stack, f);
    if ls != [] {
      assert marks[0] in marks;
      LineStep(stack, marks[0], f, fs + {f});
      StripNested(ls[1..], marks[1..], NextStack(stack, Picked(marks[0], fs + {f})), f, fs);
      if f !in stack && Start(f) !in marks[0] {
        PickedOther(marks[0], f, fs);
        StripKeepsHead(ls, marks, f);
      }
    }
  }

  lemma StripKeepsHead(ls: seq<string>, marks: seq<seq<Mark>>, f: string)
    requires IsName(f) && ls != [] && |marks| == |ls| && IsMarked(ls[0], marks[0]) && Start(f) !in marks[0]
    ensures Outer(ls, f, false) == [ls[0]] + Outer(ls[1..], f, false)
    ensures OuterMarks(marks, f, false) == [marks[0]] + OuterMarks(marks[1..], f, false)
    ensures Outer(ls, f, false)[1..] == Outer(ls[1..], f, false)
    ensures OuterMarks(marks, f, false)[1..] == OuterMarks(marks[1..], f, false)
  {
  }

  // ----- the whole pipeline -----------------------------------------------------------------------

  /** The strips of the chosen features, in order; None as soon as one reports an unclosed block. */
  function StripAll(data: string, fs: seq<string>): Option<string>
    decreases |fs|
  {
    if fs == [] then Some(data)
    else
      match Stripped(data, fs[0])
      case None => None
      case Some(next) => StripAll(next, fs[1..])
  }

  /** The loop of the initialiser over the chosen features, on one file. */
  method StripSelected(data: string, selected: seq<string>) returns (r: Option<string>)
    ensures r == StripAll(data, selected)
  {
    var now := data;
    for i := 0 to |selected|
      invariant StripAll(data, selected) == StripAll(now, selected[i..])
    {
      assert selected[i..][1..] == selected[i + 1..];
      var next := StripFeature(now, selected[i]);
      if next.Err? {
        return None;
      }
      now := next.value;
    }
    assert selected[|selected|..] == [];
    r := Some(now);
  }

  /** The same on lines. */
  function Passes(ls: seq<string>, fs: seq<string>): Option<seq<string>>
    decreases |fs|
  {
    if fs == [] then Some(ls)
    else if OpenAfter(ls, fs[0], false) then None
    else Passes(Outer(ls, fs[0], false), fs[1..])
  }

  lemma {:induction false} StripAllOnNonBlank(data: string, fs: seq<string>)
    ensures StripAll(data, fs).Some? <==> Passes(NonBlank(Lines(data)), fs).Some?
    ensures StripAll(data, fs).Some? ==>
              NonBlank(Lines(StripAll(data, fs).value)) == Passes(NonBlank(Lines(data)), fs).value
    decreases |fs|
  {
    if fs != [] {
      StripOnNonBlank(data, fs[0]);
      if Stripped(data, fs[0]).Some? {
        StripAllOnNonBlank(Stripped(data, fs[0]).value, fs[1..]);
      }
    }
  }

  /** The markers of the stripped features are well nested in the file. */
  ghost predicate IsWellNested(data: string, marks: seq<seq<Mark>>, fs: seq<string>) {
    Nested(NonBlank(Lines(data)), marks, ElementsOf(fs), [], [])
  }

  /** No strip fails, and the sweep leaves exactly the unmarked lines outside the stripped blocks. */
  ghost predicate IsRight(data: string, marks: seq<seq<Mark>>, fs: seq<string>)
    requires |marks| == |NonBlank(Lines(data))|
  {
    && StripAll(data, fs).Some?
    && NonBlank(Lines(Swept(StripAll(data, fs).value))) == Remaining(NonBlank(Lines(data)), marks, ElementsOf(fs), [])
  }

  lemma SweptPasses(data: string, fs: seq<string>)
    ensures StripAll(data, fs).Some? <==> Passes(NonBlank(Lines(data)), fs).Some?
    ensures StripAll(data, fs).Some? ==>
              NonBlank(Lines(Swept(StripAll(data, fs).value)))
              == Filter(Passes(NonBlank(Lines(data)), fs).value, NoResidual)
  {
    StripAllOnNonBlank(data, fs);
    if StripAll(data, fs).Some? {
      SweepOnNonBlank(StripAll(data, fs).value);
    }
  }

  /** What the sweep leaves: the unmarked lines. */
  lemma {:induction false} SweepNested(ls: seq<string>, marks: seq<seq<Mark>>)
    requires Nested(ls, marks, {}, [], [])
    ensures Filter(ls, NoResidual) == Remaining(ls, marks, {}, [])
    decreases |ls|
  {
    if ls != [] {
      assert Picked(marks[0], {}) == [];
      SweepOfMarked(ls[0], marks[0]);
      SweepNested(ls[1..], marks[1..]);
    }
  }

  lemma SweepOfMarked(line: string, ms: seq<Mark>)
    requires IsMarked(line, ms)
    ensures NoResidual(line) <==> ms == []
  {
    ResidualIff(line);
    if ms != [] {
      assert ms[0] in ms && IsName(ms[0].name);
      assert ms[0] == Start(ms[0].name) || ms[0] == End(ms[0].name);
    }
  }

  /** All strips of well-nested lines that are harmless, one after another, and the sweep. */
  lemma {:induction false} PassesNested(ls: seq<string>, marks: seq<seq<Mark>>, fs: seq<string>)
    requires (forall f :: f in fs ==> IsName(f)) && Nested(ls, marks, ElementsOf(fs), [], []) && AllHarmless(marks, fs)
    ensures Passes(ls, fs).Some?
    ensures Filter(Passes(ls, fs).value, NoResidual) == Remaining(ls, marks, ElementsOf(fs), [])
    decreases |fs|
  {
    if fs == [] {
      assert ElementsOf(fs) == {};
      SweepNested(ls, marks);
    } else {
      var f := fs[0];
      MoreElements(fs);
      StripNested(ls, marks, [], f, ElementsOf(fs[1..]));
      var outMarks := OuterMarks(marks, f, false);
      assert forall ms :: ms in outMarks ==> Harmless(ms, fs[1..]);
      PassesNested(Outer(ls, f, false), outMarks, fs[1..]);
    }
  }

  /**
   The meaning of the whole pipeline: when the stripped features' markers are well nested and every
   line is harmless, no strip reports an unclosed block, and after the sweep the non-blank lines
   are exactly the non-blank unmarked lines outside every block of a stripped feature, in order.
   */
  lemma PipelineMeaning(data: string, marks: seq<seq<Mark>>, fs: seq<string>)
    requires forall f :: f in fs ==> IsName(f)
    requires IsWellNested(data, marks, fs) && AllHarmless(marks, fs)
    ensures IsRight(data, marks, fs)
  {
    PassesNested(NonBlank(Lines(data)), marks, fs);
    SweptPasses(data, fs);
  }

  /** Lines with at most one marker of a stripped feature are harmless. */
  lemma {:induction false} OneMarkIsHarmless(ms: seq<Mark>, fs: seq<string>)
    requires |Picked(ms, ElementsOf(fs))| <= 1
    ensures Harmless(ms, fs)
    decreases |fs|
  {
    if fs != [] {
      MoreElements(fs);
      if Named(ms, fs[0]) {
        OneMarkLeads(Picked(ms, ElementsOf(fs)), fs[0]);
      } else {
        PickedOther(ms, fs[0], ElementsOf(fs[1..]));
        OneMarkIsHarmless(ms, fs[1..]);
      }
    }
  }

  lemma OneMarkLeads(rs: seq<Mark>, f: string)
    requires |rs| <= 1 && Named(rs, f)
    ensures Leads(rs, f)
  {
  }

  // ----- which features are looked at -------------------------------------------------------------

  function Among(stack: seq<string>, fs: set<string>): (r: seq<string>)
    ensures forall n :: n in r <==> n in stack && n in fs
  {
    if stack == [] then []
    else Among(stack[..|stack| - 1], fs) + (if stack[|stack| - 1] in fs then [stack[|stack| - 1]] else [])
  }

  lemma AmongNext(stack: seq<string>, m: Mark, fs: set<string>)
    requires Fits(stack, m)
    ensures Among(Next(stack, m), fs) == if m.name in fs then Next(Among(stack, fs), m) else Among(stack, fs)
    ensures m.name in fs ==> Fits(Among(stack, fs), m)
  {
    if m.Start? {
      assert (stack + [m.name])[..|stack|] == stack;
    }
  }

  lemma PickedFirst(ms: seq<Mark>, fs: set<string>)
    requires ms != []
    ensures ms[0].name !in fs ==> Picked(ms, fs) == Picked(ms[1..], fs)
    ensures ms[0].name in fs ==>
              Picked(ms, fs) != [] && Picked(ms, fs)[0] == ms[0] && Picked(ms, fs)[1..] == Picked(ms[1..], fs)
  {
  }

  lemma {:induction false} AmongLine(stack: seq<string>, ms: seq<Mark>, all: set<string>, fs: set<string>)
    requires fs <= all && AllFit(stack, Picked(ms, all))
    ensures AllFit(Among(stack, fs), Picked(ms, fs))
    ensures Among(NextStack(stack, Picked(ms, all)), fs) == NextStack(Among(stack, fs), Picked(ms, fs))
    decreases |ms|
  {
    if ms != [] {
      PickedFirst(ms, all);
      PickedFirst(ms, fs);
      if ms[0].name in all {
        AmongNext(stack, ms[0], fs);
        AmongLine(Next(stack, ms[0]), ms[1..], all, fs);
      } else {
        AmongLine(stack, ms[1..], all, fs);
      }
    }
  }

  /** A file in which more features are well nested is well nested for fewer. */
  lemma {:induction false} FewerNested(ls: seq<string>, marks: seq<seq<Mark>>, all: set<string>, fs: set<string>,
                                       stack: seq<string>, last: seq<string>)
    requires fs <= all && Nested(ls, marks, all, stack, last)
    ensures Nested(ls, marks, fs, Among(stack, fs), Among(last, fs))
    decreases |ls|
  {
    if ls != [] {
      AmongLine(stack, marks[0], all, fs);
      FewerNested(ls[1..], marks[1..], all, fs, NextStack(stack, Picked(marks[0], all)), last);
    }
  }
}
