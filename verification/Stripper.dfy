/**
 The marker stripper of the initialiser: removing a feature's marked blocks from a file, and
 sweeping the marker lines that remain.
 */
module Stripper {
  import opened Base
  import opened GoStrings
  import opened TextLines

  // ----- markers ------------------------------------------------------------------------------

  function StartToken(feature: string): string { "feature:" + feature + ":start" }

  function EndToken(feature: string): string { "feature:" + feature + ":end" }

  predicate NameChar(c: char) {
    'a' <= c <= 'z' || 'A' <= c <= 'Z' || '0' <= c <= '9' || c == '_' || c == '-'
  }

  predicate IsName(name: string) { name != "" && forall c :: c in name ==> NameChar(c) }

  predicate HasStart(line: string, feature: string) { Contains(line, StartToken(feature)) }

  predicate HasEnd(line: string, feature: string) { Contains(line, EndToken(feature)) }

  lemma BlankHasNoToken(line: string, feature: string)
    requires Blank(line)
    ensures !HasStart(line, feature) && !HasEnd(line, feature)
  {
    forall token: string, i | token != [] && token[0] == 'f' && 0 <= i <= |line| ensures !OccursAt(line, token, i) {
      if 0 <= i && i + |token| <= |line| {
        assert IsSpace(line[i]) by { assert line[i] in line; }
        assert line[i..i + |token|][0] == line[i];
      }
    }
    assert StartToken(feature)[0] == 'f' && EndToken(feature)[0] == 'f';
  }

  // ----- one feature, line by line --------------------------------------------------------------

  /** Whether a block of the feature is open just before line i. */
  predicate BlockAt(lines: seq<string>, f: string, i: nat)
    requires i <= |lines|
  {
    i > 0 &&
    if BlockAt(lines, f, i - 1) then !HasEnd(lines[i - 1], f) else HasStart(lines[i - 1], f)
  }

  predicate Opens(lines: seq<string>, f: string, i: nat)
    requires i < |lines|
  {
    !BlockAt(lines, f, i) && HasStart(lines[i], f)
  }

  predicate Outside(lines: seq<string>, f: string, i: nat)
    requires i < |lines|
  {
    !BlockAt(lines, f, i) && !HasStart(lines[i], f)
  }

  /** A line survives when it is outside every block and no blank directly before an opening marker. */
  predicate SurvivesAt(lines: seq<string>, f: string, i: nat)
    requires i < |lines|
  {
    Outside(lines, f, i) && !(Blank(lines[i]) && i + 1 < |lines| && Opens(lines, f, i + 1))
  }

  /** The survivors among the first n lines, in order. */
  function Survivors(lines: seq<string>, f: string, n: nat): seq<string>
    requires n <= |lines|
  {
    if n == 0 then []
    else Survivors(lines, f, n - 1) + (if SurvivesAt(lines, f, n - 1) then [lines[n - 1]] else [])
  }

  /** What a file becomes; None when a block is left open. */
  function Stripped(data: string, f: string): Option<string> {
    var lines := Lines(data);
    if BlockAt(lines, f, |lines|) then None
    else Some(Collapse(Rejoin(Survivors(lines, f, |lines|), data)))
  }

  /** Where an unclosed block was opened: line `at`, counting from one, and open ever since. */
  predicate OpenSince(lines: seq<string>, f: string, at: nat) {
    && 1 <= at <= |lines| && Opens(lines, f, at - 1)
    && forall j :: at <= j <= |lines| ==> BlockAt(lines, f, j)
  }

  predicate OpenFrom(lines: seq<string>, f: string, at: nat, n: nat)
    requires n <= |lines|
  {
    1 <= at <= n && Opens(lines, f, at - 1) && forall j :: at <= j <= n ==> BlockAt(lines, f, j)
  }

  /** What the loop has kept before line n: survivors, and the last line while it may still go. */
  function KeptBefore(lines: seq<string>, f: string, n: nat): seq<string>
    requires n <= |lines|
  {
    if n == 0 then []
    else Survivors(lines, f, n - 1) + (if Outside(lines, f, n - 1) then [lines[n - 1]] else [])
  }

  lemma KeptStep(lines: seq<string>, f: string, n: nat)
    requires n < |lines|
    ensures var kept, lastOut := KeptBefore(lines, f, n), n > 0 && Outside(lines, f, n - 1);
            && (lastOut ==> kept != [] && kept[|kept| - 1] == lines[n - 1])
            && KeptBefore(lines, f, n + 1)
               == (if Opens(lines, f, n) && lastOut && Blank(lines[n - 1]) then kept[..|kept| - 1] else kept)
                  + (if Outside(lines, f, n) then [lines[n]] else [])
  {
    if n > 0 && Outside(lines, f, n - 1) {
      assert KeptBefore(lines, f, n)[..|KeptBefore(lines, f, n)| - 1] == Survivors(lines, f, n - 1);
    }
  }

  lemma KeptAtEnd(lines: seq<string>, f: string)
    ensures KeptBefore(lines, f, |lines|) == Survivors(lines, f, |lines|)
  {
  }

  /** What the loop knows before line n: the kept lines that are written, and those that are not. */
  ghost predicate Looping(lines: seq<string>, f: string, n: nat, flushed: seq<string>, kept: seq<string>,
                          inBlock: bool) {
    && n <= |lines| && inBlock == BlockAt(lines, f, n)
    && (kept != [] <==> n > 0 && Outside(lines, f, n - 1))
    && flushed + kept == KeptBefore(lines, f, n)
  }

  /** An opening line: a blank before it is dropped, and what is kept is written. */
  lemma LoopOpens(lines: seq<string>, f: string, n: nat, flushed: seq<string>, kept: seq<string>)
    requires n < |lines| && Looping(lines, f, n, flushed, kept, false) && HasStart(lines[n], f)
    ensures var rest := if kept != [] && Blank(kept[|kept| - 1]) then kept[..|kept| - 1] else kept;
            Looping(lines, f, n + 1, flushed + rest, [], true)
  {
    KeptStep(lines, f, n);
    var all := flushed + kept;
    assert kept != [] ==> all[|all| - 1] == kept[|kept| - 1] && all[..|all| - 1] == flushed + kept[..|kept| - 1];
    assert flushed + kept + [] == flushed + kept;
  }

  lemma LoopKeeps(lines: seq<string>, f: string, n: nat, flushed: seq<string>, kept: seq<string>)
    requires n < |lines| && Looping(lines, f, n, flushed, kept, false) && !HasStart(lines[n], f)
    ensures Looping(lines, f, n + 1, flushed, kept + [lines[n]], false)
  {
    KeptStep(lines, f, n);
    assert flushed + (kept + [lines[n]]) == flushed + kept + [lines[n]];
  }

  lemma LoopInside(lines: seq<string>, f: string, n: nat, flushed: seq<string>, kept: seq<string>)
    requires n < |lines| && Looping(lines, f, n, flushed, kept, true)
    ensures kept == [] && Looping(lines, f, n + 1, flushed, kept, !HasEnd(lines[n], f))
  {
    KeptStep(lines, f, n);
    assert n > 0 ==> !Outside(lines, f, n - 1);
  }

  /** The line loop: what is written, and whether and where a block is left open. */
  method StripLines(lines: seq<string>, feature: string) returns (out: string, inBlock: bool, startLine: nat)
    ensures inBlock == BlockAt(lines, feature, |lines|)
    ensures !inBlock ==> out == Unlines(Survivors(lines, feature, |lines|))
    ensures inBlock ==> OpenSince(lines, feature, startLine)
  {
    out := "";
    ghost var flushed: seq<string> := [];
    var kept: seq<string> := [];
    inBlock, startLine := false, 0;
    for n := 0 to |lines|
      invariant Looping(lines, feature, n, flushed, kept, inBlock)
      invariant out == Unlines(flushed)
      invariant inBlock ==> OpenFrom(lines, feature, startLine, n)
    {
      var line := lines[n];
      if !inBlock && HasStart(line, feature) {
        LoopOpens(lines, feature, n, flushed, kept);
        inBlock := true;
        startLine := n + 1;
        if kept != [] && Blank(kept[|kept| - 1]) {
          kept := kept[..|kept| - 1];
        }
        UnlinesConcat(flushed, kept);
        out := out + Unlines(kept);
        flushed := flushed + kept;
        kept := [];
      } else if inBlock && HasEnd(line, feature) {
        LoopInside(lines, feature, n, flushed, kept);
        inBlock := false;
      } else if inBlock {
        LoopInside(lines, feature, n, flushed, kept);
      } else {
        LoopKeeps(lines, feature, n, flushed, kept);
        kept := kept + [line];
      }
    }
    KeptAtEnd(lines, feature);
    UnlinesConcat(flushed, kept);
    out := out + Unlines(kept);
  }

  /** stripFeatureFromFile on a file's contents: the new contents, or the line of an unclosed block. */
  method StripFeature(data: string, feature: string) returns (r: Result<string, nat>)
    ensures r.Ok? ==> Stripped(data, feature) == Some(r.value)
    ensures r.Err? ==> Stripped(data, feature) == None && OpenSince(Lines(data), feature, r.error)
  {
    var out, inBlock, startLine := StripLines(Lines(data), feature);
    if inBlock {
      return Err(startLine);
    }
    if |data| > 0 && data[|data| - 1] != NL && |out| > 0 && out[|out| - 1] == NL {
      out := out[..|out| - 1];
    }
    out := CollapseBlankRuns(out);
    r := Ok(out);
  }

  // ----- what one strip does to the non-blank lines ------------------------------------------------

  /** The lines outside the feature's blocks; `open` says whether a block is open at the start. */
  function Outer(ls: seq<string>, f: string, open: bool): seq<string> {
    if ls == [] then []
    else if open then Outer(ls[1..], f, !HasEnd(ls[0], f))
    else if HasStart(ls[0], f) then Outer(ls[1..], f, true)
    else [ls[0]] + Outer(ls[1..], f, false)
  }

  predicate OpenAfter(ls: seq<string>, f: string, open: bool) {
    if ls == [] then open
    else OpenAfter(ls[1..], f, if open then !HasEnd(ls[0], f) else HasStart(ls[0], f))
  }

  lemma {:induction false} OuterSnoc(ls: seq<string>, f: string, open: bool, l: string)
    ensures OpenAfter(ls + [l], f, open) == if OpenAfter(ls, f, open) then !HasEnd(l, f) else HasStart(l, f)
    ensures Outer(ls + [l], f, open)
         == Outer(ls, f, open) + (if !OpenAfter(ls, f, open) && !HasStart(l, f) then [l] else [])
    decreases |ls|
  {
    if ls == [] {
      assert ls + [l] == [l] && [l][1..] == [];
      assert Outer([], f, !HasEnd(l, f)) == [];
    } else {
      assert (ls + [l])[1..] == ls[1..] + [l];
      OuterSnoc(ls[1..], f, if open then !HasEnd(ls[0], f) else HasStart(ls[0], f), l);
    }
  }

  /** What the loop keeps of a line and what is outside of it differ in blank lines only. */
  lemma KeptOfLine(lines: seq<string>, f: string, i: nat)
    requires i < |lines|
    ensures NonBlank(if SurvivesAt(lines, f, i) then [lines[i]] else [])
         == NonBlank(if Outside(lines, f, i) then [lines[i]] else [])
  {
  }

  lemma OuterStep(lines: seq<string>, f: string, i: nat)
    requires i < |lines| && BlockAt(lines, f, i) == OpenAfter(lines[..i], f, false)
    ensures BlockAt(lines, f, i + 1) == OpenAfter(lines[..i + 1], f, false)
    ensures Outer(lines[..i + 1], f, false)
         == Outer(lines[..i], f, false) + (if Outside(lines, f, i) then [lines[i]] else [])
  {
    assert lines[..i + 1] == lines[..i] + [lines[i]];
    OuterSnoc(lines[..i], f, false, lines[i]);
  }

  /** So the survivors and the outer lines do. */
  lemma {:induction false} SurvivorsAreOuter(lines: seq<string>, f: string, n: nat)
    requires n <= |lines|
    ensures BlockAt(lines, f, n) == OpenAfter(lines[..n], f, false)
    ensures NonBlank(Survivors(lines, f, n)) == NonBlank(Outer(lines[..n], f, false))
  {
    if n > 0 {
      var l := lines[n - 1];
      SurvivorsAreOuter(lines, f, n - 1);
      OuterStep(lines, f, n - 1);
      KeptOfLine(lines, f, n - 1);
      FilterConcat(Survivors(lines, f, n - 1), if SurvivesAt(lines, f, n - 1) then [l] else [], NotBlank);
      FilterConcat(Outer(lines[..n - 1], f, false), if Outside(lines, f, n - 1) then [l] else [], NotBlank);
    }
  }

  /** Blank lines hold no markers, so dropping them first or last is the same. */
  lemma {:induction false} OuterOfNonBlank(ls: seq<string>, f: string, open: bool)
    ensures Outer(NonBlank(ls), f, open) == NonBlank(Outer(ls, f, open))
    ensures OpenAfter(NonBlank(ls), f, open) == OpenAfter(ls, f, open)
    decreases |ls|
  {
    if ls != [] {
      if Blank(ls[0]) {
        BlankHasNoToken(ls[0], f);
      }
      OuterOfNonBlank(ls[1..], f, if open then !HasEnd(ls[0], f) else HasStart(ls[0], f));
      if NotBlank(ls[0]) {
        assert NonBlank(ls)[1..] == NonBlank(ls[1..]);
      }
    }
  }

  lemma {:induction false} SurvivorsAreLines(lines: seq<string>, f: string, n: nat)
    requires n <= |lines| && AreLines(lines)
    ensures AreLines(Survivors(lines, f, n))
    ensures forall l :: l in Survivors(lines, f, n) ==> !HasStart(l, f)
  {
    if n > 0 {
      SurvivorsAreLines(lines, f, n - 1);
    }
  }

  /** One strip, seen on the non-blank lines. */
  lemma StripOnNonBlank(data: string, f: string)
    ensures Stripped(data, f).None? <==> OpenAfter(NonBlank(Lines(data)), f, false)
    ensures Stripped(data, f).Some? ==>
              NonBlank(Lines(Stripped(data, f).value)) == Outer(NonBlank(Lines(data)), f, false)
  {
    var lines := Lines(data);
    var kept := Survivors(lines, f, |lines|);
    LinesAreLines(data);
    assert lines[..|lines|] == lines;
    SurvivorsAreOuter(lines, f, |lines|);
    OuterOfNonBlank(lines, f, false);
    SurvivorsAreLines(lines, f, |lines|);
    NonBlankOfRejoin(kept, data);
    CollapsedLines(0, Rejoin(kept, data));
  }

  // ----- files with one block ------------------------------------------------------------------------

  predicate TextAt(line: string, text: string, i: int) {
    0 <= i <= |line| - |text| && forall k :: 0 <= k < |text| ==> line[i + k] == text[k]
  }

  /** The text occurs in the line. */
  predicate HasText(line: string, text: string) { exists i :: 0 <= i <= |line| && TextAt(line, text, i) }

  lemma OccursIsText(line: string, text: string, i: int)
    ensures OccursAt(line, text, i) <==> TextAt(line, text, i)
  {
    if OccursAt(line, text, i) {
      forall k | 0 <= k < |text| ensures line[i + k] == text[k] {
        assert line[i..i + |text|][k] == text[k];
      }
    }
    if TextAt(line, text, i) {
      assert line[i..i + |text|] == text;
    }
  }

  lemma ContainsIsText(line: string, text: string)
    ensures Contains(line, text) <==> HasText(line, text)
  {
    forall i ensures OccursAt(line, text, i) <==> TextAt(line, text, i) {
      OccursIsText(line, text, i);
    }
  }

  /** No line holds a marker of the feature. */
  predicate Free(ls: seq<string>, f: string) {
    forall l :: l in ls ==> !HasText(l, "feature:" + f + ":start") && !HasText(l, "feature:" + f + ":end")
  }

  lemma MarkerTexts(l: string, f: string)
    ensures HasStart(l, f) <==> HasText(l, "feature:" + f + ":start")
    ensures HasEnd(l, f) <==> HasText(l, "feature:" + f + ":end")
  {
    ContainsIsText(l, "feature:" + f + ":start");
    ContainsIsText(l, "feature:" + f + ":end");
  }

  lemma FreeLines(ls: seq<string>, f: string)
    requires Free(ls, f)
    ensures forall l :: l in ls ==> !HasStart(l, f) && !HasEnd(l, f)
  {
    forall l | l in ls ensures !HasStart(l, f) && !HasEnd(l, f) {
      MarkerTexts(l, f);
    }
  }

  /** The lines before a block, without a blank one directly before it. */
  function BeforeBlock(a: seq<string>): seq<string> {
    if a != [] && (forall c :: c in a[|a| - 1] ==> IsSpace(c)) then a[..|a| - 1] else a
  }

  /** From the opening line on, lines without markers are dropped. */
  lemma {:induction false} InBlockUpTo(lines: seq<string>, f: string, n: nat, m: nat)
    requires n < m <= |lines| && Opens(lines, f, n)
    requires forall i :: n < i < m ==> !HasEnd(lines[i], f)
    ensures BlockAt(lines, f, m) && Survivors(lines, f, m) == Survivors(lines, f, n)
  {
    if m > n + 1 {
      InBlockUpTo(lines, f, n, m - 1);
    }
  }

  /** Outside of blocks, lines without an opening marker stay. */
  lemma {:induction false} OutsideUpTo(lines: seq<string>, f: string, n: nat, m: nat)
    requires n <= m <= |lines| && !BlockAt(lines, f, n)
    requires forall i :: n <= i <= m && i < |lines| ==> !HasStart(lines[i], f)
    ensures !BlockAt(lines, f, m) && Survivors(lines, f, m) == Survivors(lines, f, n) + lines[n..m]
    decreases m
  {
    if n < m {
      OutsideUpTo(lines, f, n, m - 1);
      assert lines[n..m] == lines[n..m - 1] + [lines[m - 1]];
    }
  }

  /** Before the opening line, what stays. */
  lemma BeforeOpening(lines: seq<string>, f: string, n: nat)
    requires n < |lines| && HasStart(lines[n], f) && forall i :: 0 <= i < n ==> !HasStart(lines[i], f)
    ensures !BlockAt(lines, f, n) && Survivors(lines, f, n) == BeforeBlock(lines[..n])
  {
    if n > 0 {
      OutsideUpTo(lines, f, 0, n - 1);
      assert lines[0..n - 1] == lines[..n - 1] && lines[..n][..n - 1] == lines[..n - 1];
      assert lines[..n] == lines[..n - 1] + [lines[n - 1]];
    }
  }

  /** A file with one block: what survives of its lines. */
  lemma OneBlockLines(lines: seq<string>, f: string, n: nat, m: nat)
    requires n < m < |lines| && HasStart(lines[n], f) && HasEnd(lines[m], f)
    requires forall i :: 0 <= i < |lines| && i != n && i != m ==> !HasStart(lines[i], f) && !HasEnd(lines[i], f)
    ensures !BlockAt(lines, f, |lines|)
    ensures Survivors(lines, f, |lines|) == BeforeBlock(lines[..n]) + lines[m + 1..]
  {
    BeforeOpening(lines, f, n);
    InBlockUpTo(lines, f, n, m);
    OutsideUpTo(lines, f, m + 1, |lines|);
    assert lines[m + 1..|lines|] == lines[m + 1..];
  }

  lemma FreeAt(lines: seq<string>, ls: seq<string>, f: string, k: nat)
    requires Free(ls, f) && k + |ls| <= |lines| && lines[k..k + |ls|] == ls
    ensures forall i :: k <= i < k + |ls| ==> !HasStart(lines[i], f) && !HasEnd(lines[i], f)
  {
    FreeLines(ls, f);
    forall i | k <= i < k + |ls| ensures lines[i] in ls {
      assert lines[k..k + |ls|][i - k] == lines[i];
    }
  }

  /**
   A file with one block: the lines from the start marker's to the end marker's go, with a blank
   one directly before them, and the newlines are collapsed.
   */
  lemma OneBlockFile(data: string, f: string, a: seq<string>, start: string, b: seq<string>, end: string,
                     c: seq<string>)
    requires Lines(data) == a + [start] + b + [end] + c && Free(a, f) && Free(b, f) && Free(c, f)
    requires HasText(start, "feature:" + f + ":start") && HasText(end, "feature:" + f + ":end")
    ensures Stripped(data, f) == Some(Collapse(Rejoin(BeforeBlock(a) + c, data)))
    ensures NonBlank(Lines(Stripped(data, f).value)) == NonBlank(a + c)
  {
    var lines := Lines(data);
    var n, m := |a|, |a| + 1 + |b|;
    FreeAt(lines, a, f, 0);
    FreeAt(lines, b, f, n + 1);
    FreeAt(lines, c, f, m + 1);
    MarkerTexts(start, f);
    MarkerTexts(end, f);
    assert lines[n] == start && lines[m] == end && lines[..n] == a && lines[m + 1..] == c;
    OneBlockLines(lines, f, n, m);
    LinesAreLines(data);
    assert AreLines(a) by { assert forall l :: l in a ==> l in lines; }
    assert AreLines(c) by { assert forall l :: l in c ==> l in lines; }
    KeptIsNonBlank(data, a, c);
  }

  lemma BeforeBlockIsNonBlank(a: seq<string>)
    ensures NonBlank(BeforeBlock(a)) == NonBlank(a)
  {
    if BeforeBlock(a) != a {
      FilterSnoc(a, |a| - 1, NotBlank);
      assert a[..|a|] == a;
    }
  }

  lemma KeptIsNonBlank(data: string, a: seq<string>, c: seq<string>)
    requires AreLines(a) && AreLines(c)
    ensures NonBlank(Lines(Collapse(Rejoin(BeforeBlock(a) + c, data)))) == NonBlank(a + c)
  {
    var kept := BeforeBlock(a) + c;
    NonBlankOfRejoin(kept, data);
    CollapsedLines(0, Rejoin(kept, data));
    BeforeBlockIsNonBlank(a);
    FilterConcat(BeforeBlock(a), c, NotBlank);
    FilterConcat(a, c, NotBlank);
  }

  /** Without the end marker the block is reported as unclosed, at the line of its start marker. */
  lemma OpenBlockFile(data: string, f: string, a: seq<string>, start: string, b: seq<string>)
    requires Lines(data) == a + [start] + b && Free(a, f) && Free(b, f)
    requires HasText(start, "feature:" + f + ":start")
    ensures Stripped(data, f).None? && forall at :: OpenSince(Lines(data), f, at) <==> at == |a| + 1
  {
    var lines := Lines(data);
    FreeAt(lines, a, f, 0);
    FreeAt(lines, b, f, |a| + 1);
    MarkerTexts(start, f);
    assert lines[|a|] == start;
    OpenBlockLines(lines, f, |a|);
  }

  lemma OpenBlockLines(lines: seq<string>, f: string, n: nat)
    requires n < |lines| && HasStart(lines[n], f)
    requires forall i :: 0 <= i < |lines| && i != n ==> !HasStart(lines[i], f) && !HasEnd(lines[i], f)
    ensures BlockAt(lines, f, |lines|) && forall at :: OpenSince(lines, f, at) <==> at == n + 1
  {
    BeforeOpening(lines, f, n);
    forall j | n < j <= |lines| ensures BlockAt(lines, f, j) {
      InBlockUpTo(lines, f, n, j);
    }
    assert OpenSince(lines, f, n + 1);
  }

  // ----- idempotence ------------------------------------------------------------------------------

  predicate NoStart(lines: seq<string>, f: string) { forall l :: l in lines ==> !HasStart(l, f) }

  lemma {:induction false} AllSurvive(lines: seq<string>, f: string, n: nat)
    requires n <= |lines| && NoStart(lines, f)
    ensures !BlockAt(lines, f, n) && Survivors(lines, f, n) == lines[..n]
  {
    if n > 0 {
      AllSurvive(lines, f, n - 1);
      assert lines[n - 1] in lines;
      assert n < |lines| ==> lines[n] in lines;
      assert lines[..n] == lines[..n - 1] + [lines[n - 1]];
    }
  }

  /** Without an opening marker a strip only collapses newlines. */
  lemma NoMarkerOnlyCollapses(data: string, f: string)
    requires NoStart(Lines(data), f)
    ensures Stripped(data, f) == Some(Collapse(data))
  {
    var lines := Lines(data);
    AllSurvive(lines, f, |lines|);
    assert lines[..|lines|] == lines;
    RejoinAll(data);
  }

  /** Stripping a feature again changes nothing. */
  lemma StripIdempotent(data: string, f: string)
    requires Stripped(data, f).Some?
    ensures Stripped(Stripped(data, f).value, f) == Stripped(data, f)
  {
    var lines := Lines(data);
    var kept := Survivors(lines, f, |lines|);
    var result := Stripped(data, f).value;
    LinesAreLines(data);
    SurvivorsAreLines(lines, f, |lines|);
    NonBlankOfRejoin(kept, data);
    CollapsedLines(0, Rejoin(kept, data));
    forall l | l in Lines(result) ensures !HasStart(l, f) {
      if Blank(l) {
        BlankHasNoToken(l, f);
      } else {
        assert NotBlank(l) && l in NonBlank(Lines(result));
        assert l in NonBlank(kept) && l in kept;
      }
    }
    NoMarkerOnlyCollapses(result, f);
    CollapseIdentityIff(Rejoin(kept, data));
  }

  // ----- the residual sweep --------------------------------------------------------------------------

  /** Some feature's marker occurs: what the residual expression matches. */
  ghost predicate Residual(s: string) {
    exists name :: IsName(name) && (HasStart(s, name) || HasEnd(s, name))
  }

  function NameRun(s: string, i: nat): (n: nat)
    requires i <= |s|
    ensures i + n <= |s|
    ensures forall j :: i <= j < i + n ==> NameChar(s[j])
    ensures i + n < |s| ==> !NameChar(s[i + n])
    decreases |s| - i
  {
    if i < |s| && NameChar(s[i]) then NameRun(s, i + 1) + 1 else 0
  }

  /** A marker starts at i: the word, a longest non-empty name, and one of the two endings. */
  predicate MarkerAt(s: string, i: int) {
    OccursAt(s, "feature:", i) &&
    (var n := NameRun(s, i + 8);
     n > 0 && (OccursAt(s, ":start", i + 8 + n) || OccursAt(s, ":end", i + 8 + n)))
  }

  predicate MatchesResidual(s: string) { exists i :: 0 <= i <= |s| && MarkerAt(s, i) }

  lemma OccursConcat(s: string, a: string, b: string, i: int)
    ensures OccursAt(s, a + b, i) <==> OccursAt(s, a, i) && OccursAt(s, b, i + |a|)
  {
    if 0 <= i && i + |a| + |b| <= |s| {
      assert s[i..i + |a + b|] == s[i..i + |a|] + s[i + |a|..i + |a| + |b|];
      assert s[i..i + |a + b|][..|a|] == s[i..i + |a|];
      assert (a + b)[..|a|] == a && (a + b)[|a|..] == b;
      assert s[i..i + |a + b|][|a|..] == s[i + |a|..i + |a| + |b|];
    }
  }

  lemma TokenParts(s: string, name: string, ending: string, i: int)
    ensures OccursAt(s, "feature:" + name + ending, i) <==>
            OccursAt(s, "feature:", i) && OccursAt(s, name, i + 8) && OccursAt(s, ending, i + 8 + |name|)
  {
    OccursConcat(s, "feature:" + name, ending, i);
    OccursConcat(s, "feature:", name, i);
  }

  /** Name characters before a colon are the longest run of name characters there. */
  lemma {:induction false} RunIsName(s: string, name: string, i: nat)
    requires (forall c :: c in name ==> NameChar(c)) && OccursAt(s, name, i)
    requires i + |name| < |s| && s[i + |name|] == ':'
    ensures NameRun(s, i) == |name|
    decreases |name|
  {
    if name != "" {
      assert s[i..i + |name|][0] == name[0] && name[0] in name;
      assert s[i + 1..i + |name|] == s[i..i + |name|][1..] == name[1..];
      RunIsName(s, name[1..], i + 1);
    }
  }

  lemma MatchIsResidual(s: string, i: nat)
    requires i <= |s| && MarkerAt(s, i)
    ensures Residual(s)
  {
    var n := NameRun(s, i + 8);
    var name := s[i + 8..i + 8 + n];
    TokenParts(s, name, ":start", i);
    TokenParts(s, name, ":end", i);
    assert IsName(name);
    assert OccursAt(s, StartToken(name), i) || OccursAt(s, EndToken(name), i);
    assert HasStart(s, name) || HasEnd(s, name);
  }

  lemma ResidualIsMatch(s: string, name: string, ending: string, i: nat)
    requires IsName(name) && i <= |s| && OccursAt(s, "feature:" + name + ending, i)
    requires ending == ":start" || ending == ":end"
    ensures MatchesResidual(s)
  {
    TokenParts(s, name, ending, i);
    assert s[i + 8 + |name|..i + 8 + |name| + |ending|][0] == ':';
    RunIsName(s, name, i + 8);
    assert MarkerAt(s, i);
  }

  /** The matcher finds a marker exactly when some feature's marker occurs. */
  lemma ResidualIff(s: string)
    ensures MatchesResidual(s) <==> Residual(s)
  {
    if MatchesResidual(s) {
      var i :| 0 <= i <= |s| && MarkerAt(s, i);
      MatchIsResidual(s, i);
    }
    if Residual(s) {
      var name :| IsName(name) && (HasStart(s, name) || HasEnd(s, name));
      if HasStart(s, name) {
        var i :| 0 <= i <= |s| && OccursAt(s, StartToken(name), i);
        ResidualIsMatch(s, name, ":start", i);
      } else {
        var i :| 0 <= i <= |s| && OccursAt(s, EndToken(name), i);
        ResidualIsMatch(s, name, ":end", i);
      }
    }
  }

  predicate NoResidual(l: string) { !MatchesResidual(l) }

  /** stripAllResidualMarkers on one file. */
  function Swept(data: string): string {
    if MatchesResidual(data) then Rejoin(Filter(Lines(data), NoResidual), data) else data
  }

  /** The loop of the sweep: marker lines are dropped, the others written. */
  method SweepLines(lines: seq<string>) returns (out: string)
    ensures out == Unlines(Filter(lines, NoResidual))
  {
    out := "";
    ghost var kept: seq<string> := [];
    for i := 0 to |lines|
      invariant kept == Filter(lines[..i], NoResidual) && out == Unlines(kept)
    {
      FilterSnoc(lines, i, NoResidual);
      var keep := NoResidual(lines[i]);
      if keep {
        UnlinesSnoc(kept, lines[i]);
        out := out + lines[i] + [NL];
        kept := kept + [lines[i]];
      }
    }
    assert lines[..|lines|] == lines;
  }

  method SweepFile(data: string) returns (out: string)
    ensures out == Swept(data)
  {
    var matches := MatchesResidual(data);
    if !matches {
      return data;
    }
    out := SweepLines(Lines(data));
    if |data| > 0 && data[|data| - 1] != NL && |out| > 0 && out[|out| - 1] == NL {
      out := out[..|out| - 1];
    }
  }

  /** Every line is a stretch of the file. */
  lemma {:induction false} LineIsInfix(data: string, l: string)
    requires l in Lines(data)
    ensures exists i :: OccursAt(data, l, i)
    ensures l == Lines(data)[0] ==> OccursAt(data, l, 0)
  {
    var rest := Lines(data[1..]);
    if data[0] == NL {
      if l == "" {
        assert OccursAt(data, l, 0);
      } else {
        LineIsInfix(data[1..], l);
        ShiftInfix(data, l);
      }
    } else if rest == [] {
      assert data[1..] == [] && l == [data[0]];
      assert data[0..1] == l && OccursAt(data, l, 0);
    } else {
      var first := [data[0]] + rest[0];
      LineIsInfix(data[1..], rest[0]);
      OccursConcat(data, [data[0]], rest[0], 0);
      assert OccursAt(data, first, 0) by {
        assert data[0..1] == [data[0]];
        assert data[1..][0..|rest[0]|] == data[1..1 + |rest[0]|];
      }
      if l != first {
        assert l in rest;
        LineIsInfix(data[1..], l);
        ShiftInfix(data, l);
      }
    }
  }

  lemma ShiftInfix(data: string, l: string)
    requires data != [] && exists i :: OccursAt(data[1..], l, i)
    ensures exists i :: OccursAt(data, l, i)
  {
    var i :| OccursAt(data[1..], l, i);
    assert data[1..][i..i + |l|] == data[i + 1..i + 1 + |l|];
    assert OccursAt(data, l, i + 1);
  }

  lemma ContainsThrough(data: string, l: string, token: string)
    requires (exists i :: OccursAt(data, l, i)) && Contains(l, token)
    ensures Contains(data, token)
  {
    var i :| OccursAt(data, l, i);
    var j :| 0 <= j <= |l| && OccursAt(l, token, j);
    forall k | 0 <= k < |token| ensures data[i + j + k] == token[k] {
      assert data[i..i + |l|][j + k] == l[j + k] && l[j..j + |token|][k] == token[k];
    }
    assert data[i + j..i + j + |token|] == token;
    assert OccursAt(data, token, i + j);
  }

  /** The sweep removes the marker lines and keeps the other non-blank lines. */
  lemma SweepOnNonBlank(data: string)
    ensures NonBlank(Lines(Swept(data))) == Filter(NonBlank(Lines(data)), NoResidual)
  {
    var lines := Lines(data);
    LinesAreLines(data);
    FiltersCommute(lines);
    if MatchesResidual(data) {
      NonBlankOfRejoin(Filter(lines, NoResidual), data);
    } else {
      forall l | l in lines ensures NoResidual(l) {
        LineIsInfix(data, l);
        if MatchesResidual(l) {
          ResidualIff(l);
          var name :| IsName(name) && (HasStart(l, name) || HasEnd(l, name));
          ContainsThrough(data, l, if HasStart(l, name) then StartToken(name) else EndToken(name));
          ResidualIff(data);
        }
      }
      FilterAll(NonBlank(lines), NoResidual);
    }
  }

  lemma {:induction false} FiltersCommute(ls: seq<string>)
    ensures NonBlank(Filter(ls, NoResidual)) == Filter(NonBlank(ls), NoResidual)
  {
    if ls != [] {
      FiltersCommute(ls[1..]);
      if NoResidual(ls[0]) {
        assert Filter(ls, NoResidual)[1..] == Filter(ls[1..], NoResidual);
      }
      if NotBlank(ls[0]) {
        assert NonBlank(ls)[1..] == NonBlank(ls[1..]);
      }
    }
  }

  /** ASCII letters, digits, underscore and hyphen. */
  predicate IsWordCode(k: int) { 97 <= k <= 122 || 65 <= k <= 90 || 48 <= k <= 57 || k == 95 || k == 45 }

  /** A marker of any feature occurs, in its own words. */
  ghost predicate HasMarker(s: string) {
    exists name, ending :: IsMarkerText(name, ending) && HasText(s, "feature:" + name + ending)
  }

  predicate IsMarkerText(name: string, ending: string) {
    name != "" && (forall c :: c in name ==> IsWordCode(c as int)) && (ending == ":start" || ending == ":end")
  }

  /** What the sweep drops: exactly the lines with the text of a marker. */
  lemma ResidualText(s: string)
    ensures MatchesResidual(s) <==> HasMarker(s)
  {
    ResidualIff(s);
    if Residual(s) {
      var name :| IsName(name) && (HasStart(s, name) || HasEnd(s, name));
      MarkerTexts(s, name);
      assert IsMarkerText(name, ":start") && IsMarkerText(name, ":end");
    }
    if HasMarker(s) {
      var name, ending :| IsMarkerText(name, ending) && HasText(s, "feature:" + name + ending);
      MarkerTexts(s, name);
      assert IsName(name);
    }
  }
}
