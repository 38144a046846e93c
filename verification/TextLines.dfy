/** Files as lines: splitting as bufio.Scanner does, rejoining, blank lines, and newline runs. */
module TextLines {
  import opened Base

  const NL: char := '\n'

  /** The lines of a file without carriage returns; a final newline ends the last line. */
  function Lines(data: string): (ls: seq<string>)
    ensures ls == [] <==> data == []
  {
    if data == [] then []
    else if data[0] == NL then [""] + Lines(data[1..])
    else
      var rest := Lines(data[1..]);
      if rest == [] then [[data[0]]] else [[data[0]] + rest[0]] + rest[1..]
  }

  function Unlines(ls: seq<string>): string {
    if ls == [] then "" else ls[0] + [NL] + Unlines(ls[1..])
  }

  predicate IsLine(l: string) { NL !in l }

  predicate AreLines(ls: seq<string>) { forall l :: l in ls ==> IsLine(l) }

  /** Writing lines back: the newline after the last one is dropped if the input had none. */
  function Rejoin(ls: seq<string>, data: string): string {
    var out := Unlines(ls);
    if data != [] && data[|data| - 1] != NL && out != [] && out[|out| - 1] == NL then out[..|out| - 1] else out
  }

  /** unicode.IsSpace. */
  predicate IsSpace(c: char) {
    '\t' <= c <= '\r' || c == ' ' || c == '\U{85}' || c == '\U{A0}' || c == '\U{1680}' || '\U{2000}' <= c <= '\U{200A}'
    || c == '\U{2028}' || c == '\U{2029}' || c == '\U{202F}' || c == '\U{205F}' || c == '\U{3000}'
  }

  predicate Blank(l: string) { forall c :: c in l ==> IsSpace(c) }

  predicate NotBlank(l: string) { !Blank(l) }

  function NonBlank(ls: seq<string>): seq<string> { Filter(ls, NotBlank) }

  // ----- splitting and joining --------------------------------------------------------------

  lemma {:induction false} LinesAreLines(data: string)
    ensures AreLines(Lines(data))
  {
    if data != [] {
      LinesAreLines(data[1..]);
      var rest := Lines(data[1..]);
      assert rest != [] ==> rest[0] in rest;
    }
  }

  lemma {:induction false} LinesOfLine(l: string, rest: string)
    requires IsLine(l)
    ensures Lines(l + [NL] + rest) == [l] + Lines(rest)
  {
    if l == [] {
      assert (l + [NL] + rest)[1..] == rest;
    } else {
      assert (l + [NL] + rest)[1..] == l[1..] + [NL] + rest;
      LinesOfLine(l[1..], rest);
      assert l[0] in l && [l[0]] + l[1..] == l;
    }
  }

  /** Where lines end: at each newline character, and at the end of a text that is not empty. */
  lemma LinesEnd(l: string, rest: string)
    requires '\n' !in l
    ensures Lines(l + "\n" + rest) == [l] + Lines(rest) && Lines(l) == if l == "" then [] else [l]
  {
    LinesOfLine(l, rest);
    if l != "" {
      LinesOfLastLine(l);
    }
  }

  /** A line is blank when all its characters are Unicode white space. */
  lemma BlankIff(l: string)
    ensures Blank(l) <==> forall c :: c in l ==>
              var k := c as int;
              || 9 <= k <= 13 || k == 32 || k == 0x85 || k == 0xA0 || k == 0x1680 || 0x2000 <= k <= 0x200A
              || k == 0x2028 || k == 0x2029 || k == 0x202F || k == 0x205F || k == 0x3000
  {
  }

  lemma {:induction false} LinesOfUnlines(ls: seq<string>)
    requires AreLines(ls)
    ensures Lines(Unlines(ls)) == ls
  {
    if ls != [] {
      LinesOfUnlines(ls[1..]);
      LinesOfLine(ls[0], Unlines(ls[1..]));
    }
  }

  /** Splitting and joining a file gives it back, with a final newline. */
  lemma {:induction false} UnlinesOfLines(data: string)
    ensures Unlines(Lines(data)) == if data == [] || data[|data| - 1] == NL then data else data + [NL]
  {
    if data != [] {
      UnlinesOfLines(data[1..]);
      UnlinesOfFirst(data);
      assert data == [data[0]] + data[1..];
      assert data[1..] != [] ==> data[1..][|data| - 2] == data[|data| - 1];
    }
  }

  /** The first character of a file is the first one written back. */
  lemma UnlinesOfFirst(data: string)
    requires data != []
    ensures Unlines(Lines(data))
         == if data[1..] == [] && data[0] != NL then [data[0], NL] else [data[0]] + Unlines(Lines(data[1..]))
  {
    var rest := Lines(data[1..]);
    if data[0] == NL {
      assert Lines(data)[1..] == rest;
    } else if rest != [] {
      assert Lines(data)[0] == [data[0]] + rest[0] && Lines(data)[1..] == rest[1..];
    } else {
      assert Lines(data)[0] == [data[0]] && Lines(data)[1..] == [];
      assert Unlines(Lines(data)) == [data[0]] + [NL] + Unlines([]);
    }
  }

  /** So rejoining all lines of a file gives exactly the file. */
  lemma RejoinAll(data: string)
    ensures Rejoin(Lines(data), data) == data
  {
    UnlinesOfLines(data);
  }

  lemma {:induction false} LinesOfLastLine(l: string)
    requires IsLine(l) && l != []
    ensures Lines(l) == [l]
  {
    assert l[0] in l && [l[0]] + l[1..] == l;
    if |l| > 1 {
      LinesOfLastLine(l[1..]);
    } else {
      assert l[1..] == [] && Lines(l[1..]) == [];
      assert l == [l[0]];
    }
  }

  lemma {:induction false} UnlinesConcat(a: seq<string>, b: seq<string>)
    ensures Unlines(a + b) == Unlines(a) + Unlines(b)
  {
    if a == [] {
      assert a + b == b;
    } else {
      assert (a + b)[1..] == a[1..] + b;
      UnlinesConcat(a[1..], b);
    }
  }

  lemma UnlinesSnoc(ls: seq<string>, l: string)
    ensures Unlines(ls + [l]) == Unlines(ls) + l + [NL]
  {
    UnlinesConcat(ls, [l]);
    UnlinesOne(l);
  }

  lemma UnlinesOne(l: string)
    ensures Unlines([l]) == l + [NL]
  {
    assert [l][1..] == [] && Unlines([]) == "";
  }

  lemma FirstJoin<T>(a: seq<T>, b: seq<T>)
    requires a != []
    ensures [a[0]] + (a[1..] + b) == a + b
  {
  }

  lemma UnlinesFirst(ls: seq<string>, rest: string)
    requires ls != []
    ensures Unlines(ls) + rest == ls[0] + [NL] + (Unlines(ls[1..]) + rest)
  {
  }

  lemma {:induction false} LinesOfUnlinesAnd(ls: seq<string>, rest: string)
    requires AreLines(ls)
    ensures Lines(Unlines(ls) + rest) == ls + Lines(rest)
  {
    if ls == [] {
      assert Unlines(ls) + rest == rest;
    } else {
      assert ls[0] in ls;
      LinesOfUnlinesAnd(ls[1..], rest);
      UnlinesFirst(ls, rest);
      LinesOfLine(ls[0], Unlines(ls[1..]) + rest);
      FirstJoin(ls, Lines(rest));
    }
  }

  /** Lines written back without the last newline. */
  function Chopped(ls: seq<string>): string
    requires ls != []
  {
    Unlines(ls[..|ls| - 1]) + ls[|ls| - 1]
  }

  lemma UnlinesIsChopped(ls: seq<string>)
    requires ls != []
    ensures Unlines(ls) == Chopped(ls) + [NL]
  {
    UnlinesSnoc(ls[..|ls| - 1], ls[|ls| - 1]);
    assert ls[..|ls| - 1] + [ls[|ls| - 1]] == ls;
  }

  lemma LinesOfChopped(ls: seq<string>)
    requires AreLines(ls) && ls != []
    ensures Lines(Chopped(ls)) == if ls[|ls| - 1] == "" then ls[..|ls| - 1] else ls
  {
    var before, last := ls[..|ls| - 1], ls[|ls| - 1];
    LinesOfUnlinesAnd(before, last);
    if last != "" {
      LinesOfLastLine(last);
      assert before + [last] == ls;
    }
  }

  /** An empty last line is blank, and goes with the final newline. */
  lemma NonBlankOfDropped(ls: seq<string>)
    requires ls != [] && ls[|ls| - 1] == ""
    ensures NonBlank(ls[..|ls| - 1]) == NonBlank(ls)
  {
    FilterSnoc(ls, |ls| - 1, NotBlank);
    assert ls[..|ls|] == ls;
    assert Blank("");
  }

  lemma NonBlankOfChopped(ls: seq<string>)
    requires AreLines(ls) && ls != []
    ensures NonBlank(Lines(Chopped(ls))) == NonBlank(ls)
  {
    LinesOfChopped(ls);
    if ls[|ls| - 1] == "" {
      NonBlankOfDropped(ls);
    }
  }

  /** What is written back is all lines, or all but the last newline. */
  lemma RejoinForms(ls: seq<string>, data: string)
    ensures Rejoin(ls, data) == Unlines(ls) || (ls != [] && Rejoin(ls, data) == Chopped(ls))
  {
    if ls != [] {
      UnlinesIsChopped(ls);
    }
  }

  /** How what is written back ends: with a newline exactly when the input did. */
  lemma RejoinEnds(ls: seq<string>, data: string)
    requires ls != [] && data != ""
    ensures Rejoin(ls, data)
         == Unlines(ls[..|ls| - 1]) + ls[|ls| - 1] + (if data[|data| - 1] == '\n' then "\n" else "")
  {
    UnlinesIsChopped(ls);
  }

  /** Writing lines back keeps the non-blank ones. */
  lemma NonBlankOfRejoin(ls: seq<string>, data: string)
    requires AreLines(ls)
    ensures NonBlank(Lines(Rejoin(ls, data))) == NonBlank(ls)
  {
    RejoinForms(ls, data);
    LinesOfUnlines(ls);
    if ls != [] {
      NonBlankOfChopped(ls);
    }
  }

  // ----- runs of newlines --------------------------------------------------------------------

  /** What is written for `data` after `streak` newlines: at most two newlines in a row. */
  function Collapsed(streak: nat, data: string): string
    decreases |data|
  {
    if data == [] then []
    else if data[0] == NL then (if streak < 2 then [NL] else []) + Collapsed(streak + 1, data[1..])
    else [data[0]] + Collapsed(0, data[1..])
  }

  function Collapse(data: string): string { Collapsed(0, data) }

  /** The number of newlines at the end of `data`. */
  function Trailing(data: string): nat {
    if data != [] && data[|data| - 1] == NL then Trailing(data[..|data| - 1]) + 1 else 0
  }

  lemma CollapsedOne(streak: nat, c: char)
    ensures Collapsed(streak, [c]) == WrittenFor(streak, c)
  {
    assert [c][1..] == [] && forall k :: Collapsed(k, []) == [];
  }

  lemma {:induction false} CollapsedSnoc(streak: nat, data: string, c: char)
    ensures Collapsed(streak, data + [c]) == Collapsed(streak, data) + WrittenFor(StreakAfter(streak, data), c)
    decreases |data|
  {
    if data == [] {
      assert data + [c] == [c];
      CollapsedOne(streak, c);
    } else {
      assert (data + [c])[1..] == data[1..] + [c] && (data + [c])[0] == data[0];
      CollapsedSnoc(if data[0] == NL then streak + 1 else 0, data[1..], c);
    }
  }

  function StreakAfter(streak: nat, data: string): nat
    decreases |data|
  {
    if data == [] then streak
    else StreakAfter(if data[0] == NL then streak + 1 else 0, data[1..])
  }

  lemma {:induction false} StreakSnoc(streak: nat, data: string, c: char)
    ensures StreakAfter(streak, data + [c]) == if c == NL then StreakAfter(streak, data) + 1 else 0
    decreases |data|
  {
    if data == [] {
      assert data + [c] == [c];
      assert [c][1..] == [];
    } else {
      assert (data + [c])[1..] == data[1..] + [c];
      StreakSnoc(if data[0] == NL then streak + 1 else 0, data[1..], c);
    }
  }

  function WrittenFor(streak: nat, c: char): string {
    if c == NL && streak >= 2 then [] else [c]
  }

  /** collapseBlankRuns, byte by byte. */
  method CollapseBlankRuns(b: string) returns (out: string)
    ensures out == Collapse(b)
  {
    out := "";
    var streak := 0;
    for i := 0 to |b|
      invariant out == Collapsed(0, b[..i]) && streak == StreakAfter(0, b[..i])
    {
      assert b[..i + 1] == b[..i] + [b[i]];
      CollapsedSnoc(0, b[..i], b[i]);
      StreakSnoc(0, b[..i], b[i]);
      if b[i] == NL {
        streak := streak + 1;
        if streak <= 2 {
          out := out + [b[i]];
        }
      } else {
        streak := 0;
        out := out + [b[i]];
      }
    }
    assert b[..|b|] == b;
  }

  function Newlines(k: nat): (s: string)
    ensures |s| == k && forall i :: 0 <= i < k ==> s[i] == NL
  {
    seq(k, _ => NL)
  }

  lemma {:induction false} CollapsedRun(streak: nat, k: nat, rest: string)
    requires rest == [] || rest[0] != NL
    ensures Collapsed(streak, Newlines(k) + rest)
         == Newlines(if streak >= 2 then 0 else Min(k, 2 - streak)) + Collapsed(0, rest)
    decreases k
  {
    if k == 0 {
      assert Newlines(0) + rest == rest;
      CollapsedStreak(streak, rest);
    } else {
      OneNewline(k, rest);
      CollapsedRun(streak + 1, k - 1, rest);
      if streak < 2 {
        OneNewline(Min(k, 2 - streak), Collapsed(0, rest));
      }
    }
  }

  /** Before text that does not start with a newline the streak does not matter. */
  lemma CollapsedStreak(streak: nat, rest: string)
    requires rest == [] || rest[0] != NL
    ensures Collapsed(streak, rest) == Collapsed(0, rest)
    ensures Newlines(0) + Collapsed(0, rest) == Collapsed(0, rest)
  {
  }

  lemma OneNewline(k: nat, rest: string)
    requires k > 0
    ensures Newlines(k) + rest == [NL] + (Newlines(k - 1) + rest)
    ensures (Newlines(k) + rest)[0] == NL && (Newlines(k) + rest)[1..] == Newlines(k - 1) + rest
  {
  }

  lemma {:induction false} CollapsedAppend(streak: nat, a: string, b: string)
    ensures Collapsed(streak, a + b) == Collapsed(streak, a) + Collapsed(StreakAfter(streak, a), b)
    decreases |a|
  {
    if a == [] {
      assert a + b == b;
    } else {
      assert (a + b)[1..] == a[1..] + b;
      CollapsedAppend(if a[0] == NL then streak + 1 else 0, a[1..], b);
    }
  }

  /**
   Each maximal run of newlines is cut to two and everything around it is collapsed on its own; text
   without newlines stays as it is.
   */
  lemma CollapseRun(a: string, run: string, b: string)
    requires forall c :: c in run ==> c == '\n'
    requires a == [] || a[|a| - 1] != '\n'
    requires b == [] || b[0] != '\n'
    ensures Collapse(a + run + b) == Collapse(a) + Cut(run, 2) + Collapse(b)
  {
    var k := |run|;
    RunIsNewlines(run);
    NoStreak(a);
    CollapsedAppend(0, a, run + b);
    CollapsedRun(0, k, b);
    assert a + run + b == a + (run + b);
    assert Collapse(a) + Cut(run, 2) + Collapse(b) == Collapse(a) + (Cut(run, 2) + Collapse(b));
  }

  lemma RunIsNewlines(run: string)
    requires forall c :: c in run ==> c == NL
    ensures run == Newlines(|run|) && Cut(run, 2) == Newlines(Min(|run|, 2))
  {
    assert forall i :: 0 <= i < |run| ==> run[i] in run;
    assert run == Newlines(|run|);
  }

  lemma NoStreak(a: string)
    requires a == [] || a[|a| - 1] != NL
    ensures StreakAfter(0, a) == 0
  {
    if a != [] {
      assert a == a[..|a| - 1] + [a[|a| - 1]];
      StreakSnoc(0, a[..|a| - 1], a[|a| - 1]);
    }
  }

  lemma {:induction false} CollapseKeepsText(a: string)
    requires NL !in a
    ensures Collapse(a) == a
  {
    if a != [] {
      CollapseKeepsText(a[1..]);
    }
  }

  /** No three newlines in a row, counting `streak` that came before. */
  predicate NoLongRun(streak: nat, data: string)
    decreases |data|
  {
    data == [] ||
    (if data[0] == NL then streak < 2 && NoLongRun(streak + 1, data[1..]) else NoLongRun(0, data[1..]))
  }

  predicate TripleAt(data: string, i: nat) {
    i + 2 < |data| && data[i] == NL && data[i + 1] == NL && data[i + 2] == NL
  }

  predicate NoTriple(data: string) { forall i :: 0 <= i < |data| ==> !TripleAt(data, i) }

  /** A character between two newlines or fewer and a text keeps them apart. */
  lemma TriplesAfterText(streak: nat, c: char, rest: string)
    requires streak <= 2 && c != NL
    ensures NoTriple(Newlines(streak) + [c] + rest) <==> NoTriple(rest)
  {
    var all := Newlines(streak) + [c] + rest;
    forall i: nat ensures TripleAt(rest, i) <==> TripleAt(all, i + streak + 1) {
      if i < |rest| { assert rest[i] == all[i + streak + 1]; }
      if i + 1 < |rest| { assert rest[i + 1] == all[i + streak + 2]; }
      if i + 2 < |rest| { assert rest[i + 2] == all[i + streak + 3]; }
    }
    assert all[streak] != NL;
    assert forall i: nat :: i <= streak ==> !TripleAt(all, i);
    if !NoTriple(all) {
      var i: nat :| i < |all| && TripleAt(all, i);
      assert TripleAt(rest, i - streak - 1);
    }
    if !NoTriple(rest) {
      var i: nat :| i < |rest| && TripleAt(rest, i);
      assert TripleAt(all, i + streak + 1);
    }
  }

  lemma {:induction false} NoLongRunIff(streak: nat, data: string)
    requires streak <= 2
    ensures NoLongRun(streak, data) <==> NoTriple(Newlines(streak) + data)
    decreases |data|
  {
    var all := Newlines(streak) + data;
    if data != [] {
      var rest := data[1..];
      if data[0] == NL && streak == 2 {
        assert TripleAt(all, 0);
      } else if data[0] == NL {
        assert all == Newlines(streak + 1) + rest;
        NoLongRunIff(streak + 1, rest);
      } else {
        NoLongRunIff(0, rest);
        assert Newlines(0) + rest == rest;
        assert all == Newlines(streak) + [data[0]] + rest;
        TriplesAfterText(streak, data[0], rest);
      }
    }
  }

  lemma {:induction false} CollapsedHasNoLongRun(streak: nat, data: string)
    ensures NoLongRun(Min(streak, 2), Collapsed(streak, data))
    decreases |data|
  {
    if data != [] {
      var next := if data[0] == NL then streak + 1 else 0;
      CollapsedHasNoLongRun(next, data[1..]);
      if data[0] != NL || streak < 2 {
        assert Collapsed(streak, data)[1..] == Collapsed(next, data[1..]);
      } else {
        assert Collapsed(streak, data) == Collapsed(next, data[1..]);
      }
    }
  }

  lemma {:induction false} CollapsedIdentity(streak: nat, data: string)
    requires NoLongRun(streak, data)
    ensures Collapsed(streak, data) == data
    decreases |data|
  {
    if data != [] {
      CollapsedIdentity(if data[0] == NL then streak + 1 else 0, data[1..]);
    }
  }

  /** Collapsing never leaves three newlines in a row, and is the identity exactly on such files. */
  lemma CollapseIdentityIff(data: string)
    ensures NoTriple(Collapse(data)) && Collapse(Collapse(data)) == Collapse(data)
    ensures Collapse(data) == data <==> NoTriple(data)
  {
    CollapsedHasNoLongRun(0, data);
    CollapsedIdentity(0, Collapse(data));
    NoLongRunIff(0, Collapse(data));
    NoLongRunIff(0, data);
    assert Newlines(0) + Collapse(data) == Collapse(data) && Newlines(0) + data == data;
    if NoTriple(data) {
      CollapsedIdentity(0, data);
    }
  }

  /** Dropping newlines beyond the second drops empty lines only. */
  lemma {:induction false} CollapsedLines(streak: nat, data: string)
    ensures NonBlank(Lines(Collapsed(streak, data))) == NonBlank(Lines(data))
    ensures streak == 0 ==> (Collapsed(streak, data) == [] <==> data == [])
    ensures streak == 0 && data != [] ==>
              && Lines(Collapsed(streak, data))[0] == Lines(data)[0]
              && NonBlank(Lines(Collapsed(streak, data))[1..]) == NonBlank(Lines(data)[1..])
    decreases |data|
  {
    if data != [] {
      var next := if data[0] == NL then streak + 1 else 0;
      var rest, out := data[1..], Collapsed(next, data[1..]);
      CollapsedLines(next, rest);
      if data[0] == NL {
        assert NonBlank(Lines(data)) == NonBlank(Lines(rest)) by {
          assert Lines(data)[1..] == Lines(rest);
        }
        if streak < 2 {
          assert Collapsed(streak, data) == [NL] + out && ([NL] + out)[1..] == out;
          assert Lines([NL] + out)[1..] == Lines(out);
        } else {
          assert Collapsed(streak, data) == out;
        }
      } else {
        assert ([data[0]] + out)[1..] == out;
        if rest != [] {
          assert Lines([data[0]] + out)[1..] == Lines(out)[1..];
          assert Lines(data)[1..] == Lines(rest)[1..];
        }
      }
    }
  }
}
