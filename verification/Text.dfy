/** The string operations of the web client: trimming, collapsing blank lines, decimal numbers. */
module Text {

  /** What `trim` and the class `\s` take for white space. */
  predicate IsSpace(c: char)
  {
    c in "\t\n\r \U{B}\U{C}\U{A0}\U{1680}\U{2028}\U{2029}\U{202F}\U{205F}\U{3000}\U{FEFF}" ||
    '\U{2000}' <= c <= '\U{200A}'
  }

  /** White space by its codes: tab to carriage return, and the space separators of Unicode. */
  lemma SpacesAre(c: char)
    ensures IsSpace(c) <==>
            var n := c as int;
            9 <= n <= 13 || n == 0x20 || n == 0xA0 || n == 0x1680 || 0x2000 <= n <= 0x200A || n == 0x2028 ||
            n == 0x2029 || n == 0x202F || n == 0x205F || n == 0x3000 || n == 0xFEFF
  {
    var spaces := "\t\n\r \U{B}\U{C}\U{A0}\U{1680}\U{2028}\U{2029}\U{202F}\U{205F}\U{3000}\U{FEFF}";
    assert c in spaces <==> exists i :: 0 <= i < 14 && spaces[i] == c;
  }

  function TrimStart(s: string): (r: string)
    ensures |r| <= |s| && (r != "" ==> !IsSpace(r[0]))
  {
    if s != "" && IsSpace(s[0]) then TrimStart(s[1..]) else s
  }

  function TrimEnd(s: string): (r: string)
    ensures |r| <= |s| && r == s[..|r|] && (r != "" ==> !IsSpace(r[|r| - 1]))
  {
    if s != "" && IsSpace(s[|s| - 1]) then TrimEnd(s[..|s| - 1]) else s
  }

  function Trim(s: string): (r: string)
    ensures |r| <= |s|
  {
    TrimStart(TrimEnd(s))
  }

  predicate Trimmed(s: string)
  {
    s == "" || (!IsSpace(s[0]) && !IsSpace(s[|s| - 1]))
  }

  lemma {:induction false} TrimStartIsSuffix(s: string)
    ensures var r := TrimStart(s); r == s[|s| - |r|..]
  {
    if s != "" && IsSpace(s[0]) {
      TrimStartIsSuffix(s[1..]);
    }
  }

  lemma TrimIsTrimmed(s: string)
    ensures Trimmed(Trim(s)) && Trim(Trim(s)) == Trim(s)
  {
    TrimStartIsSuffix(TrimEnd(s));
  }

  lemma {:induction false} TrimStartDrops(s: string) returns (before: string)
    ensures s == before + TrimStart(s) && forall c :: c in before ==> IsSpace(c)
  {
    hide IsSpace;
    if s != "" && IsSpace(s[0]) {
      var rest := TrimStartDrops(s[1..]);
      before := [s[0]] + rest;
    } else {
      before := "";
    }
  }

  lemma {:induction false} TrimEndDrops(s: string) returns (after: string)
    ensures s == TrimEnd(s) + after && forall c :: c in after ==> IsSpace(c)
  {
    hide IsSpace;
    if s != "" && IsSpace(s[|s| - 1]) {
      var rest := TrimEndDrops(s[..|s| - 1]);
      after := rest + [s[|s| - 1]];
      assert s == (TrimEnd(s) + rest) + [s[|s| - 1]] == TrimEnd(s) + after;
    } else {
      after := "";
    }
  }

  /** What trimming takes away is white space at the two ends. */
  lemma TrimDropsSpaces(s: string) returns (before: string, after: string)
    ensures s == before + Trim(s) + after
    ensures forall c :: c in before || c in after ==> IsSpace(c)
    ensures Trimmed(Trim(s))
  {
    after := TrimEndDrops(s);
    before := TrimStartDrops(TrimEnd(s));
    TrimIsTrimmed(s);
  }

  lemma NothingToTrim(s: string)
    requires Trimmed(s)
    ensures Trim(s) == s
  {
  }

  /** Only white space is dropped, all of it at the ends. */
  lemma {:induction false} TrimEndAppend(s: string, tail: string)
    ensures TrimEnd(s + tail) == if TrimEnd(tail) == "" then TrimEnd(s) else s + TrimEnd(tail)
  {
    if tail == "" {
      assert s + tail == s;
    } else if IsSpace(tail[|tail| - 1]) {
      var shorter := tail[..|tail| - 1];
      assert (s + tail)[..|s + tail| - 1] == s + shorter;
      TrimEndAppend(s, shorter);
    }
  }

  // --- Blank lines ---------------------------------------------------------------------------------

  function Newlines(n: nat): (s: string)
    ensures |s| == n && forall i :: 0 <= i < n ==> s[i] == '\n'
  {
    seq(n, _ => '\n')
  }

  function NewlineRun(s: string): (n: nat)
    ensures n <= |s| && (forall i :: 0 <= i < n ==> s[i] == '\n') && (n < |s| ==> s[n] != '\n')
  {
    if s != "" && s[0] == '\n' then NewlineRun(s[1..]) + 1 else 0
  }

  /** Three newlines or more become two. */
  function Collapse(s: string): (r: string)
    ensures |r| <= |s|
  {
    if s == "" then ""
    else if s[0] == '\n' then
      var run := NewlineRun(s);
      Newlines(if run >= 3 then 2 else run) + Collapse(s[run..])
    else [s[0]] + Collapse(s[1..])
  }

  predicate TripleAt(s: string, i: int)
  {
    0 <= i <= |s| - 3 && s[i] == '\n' && s[i + 1] == '\n' && s[i + 2] == '\n'
  }

  ghost predicate HasTriple(s: string)
  {
    exists i :: TripleAt(s, i)
  }

  /** Text without three newlines in a row is left alone; any other gets shorter. */
  lemma {:induction false} CollapseChangesIff(s: string)
    ensures HasTriple(s) <==> |Collapse(s)| < |s|
    ensures !HasTriple(s) ==> Collapse(s) == s
  {
    if s == "" {
    } else {
      var run := if s[0] == '\n' then NewlineRun(s) else 1;
      CollapseChangesIff(s[run..]);
      TripleAfterRun(s, run);
      CollapseFront(s, run);
    }
  }

  lemma CollapseFront(s: string, run: nat)
    requires s != "" && run == if s[0] == '\n' then NewlineRun(s) else 1
    ensures run <= |s|
    ensures |Collapse(s)| == (if run >= 3 && s[0] == '\n' then 2 else run) + |Collapse(s[run..])|
    ensures run < 3 || s[0] != '\n' ==> Collapse(s) == s[..run] + Collapse(s[run..])
    ensures s == s[..run] + s[run..]
  {
    if s[0] == '\n' {
      assert s[..run] == Newlines(run);
    } else {
      assert s[..1] == [s[0]];
    }
  }

  lemma TripleAfterRun(s: string, run: nat)
    requires s != "" && run == if s[0] == '\n' then NewlineRun(s) else 1
    ensures HasTriple(s) <==> (run >= 3 && s[0] == '\n') || HasTriple(s[run..])
  {
    if i :| TripleAt(s[run..], i) {
      assert TripleAt(s, run + i);
    }
    if run >= 3 && s[0] == '\n' {
      assert TripleAt(s, 0);
    }
    if i :| TripleAt(s, i) {
      if i >= run {
        assert TripleAt(s[run..], i - run);
      }
    }
  }

  lemma {:induction false} TrimEndNewlines(n: nat)
    ensures TrimEnd(Newlines(n)) == ""
  {
    if n > 0 {
      assert Newlines(n)[..n - 1] == Newlines(n - 1);
      TrimEndNewlines(n - 1);
    }
  }

  /** Newlines at the end do not outlive trimming. */
  lemma {:induction false} CollapseDropsEnd(s: string, n: nat)
    ensures TrimEnd(Collapse(s + Newlines(n))) == TrimEnd(Collapse(s))
  {
    var all := s + Newlines(n);
    if s == "" {
      assert all == Newlines(n);
      CollapseNewlines(n);
    } else if s[0] == '\n' {
      var run := NewlineRun(s);
      if run == |s| {
        assert s == s[..run] == Newlines(run);
        assert all == Newlines(run + n);
        CollapseNewlines(run);
        CollapseNewlines(run + n);
      } else {
        RunOf(all, run);
        assert all[run..] == s[run..] + Newlines(n);
        CollapseDropsEnd(s[run..], n);
        var kept := Newlines(if run >= 3 then 2 else run);
        TrimEndAppend(kept, Collapse(s[run..]));
        TrimEndAppend(kept, Collapse(all[run..]));
      }
    } else {
      assert all[1..] == s[1..] + Newlines(n);
      CollapseDropsEnd(s[1..], n);
      TrimEndAppend([s[0]], Collapse(s[1..]));
      TrimEndAppend([s[0]], Collapse(all[1..]));
    }
  }

  lemma CollapseNewlines(n: nat)
    ensures TrimEnd(Collapse(Newlines(n))) == ""
  {
    if n > 0 {
      var run := NewlineRun(Newlines(n));
      assert run == n;
      var kept: nat := if run >= 3 then 2 else run;
      assert Collapse(Newlines(n)) == Newlines(kept);
      TrimEndNewlines(kept);
    }
  }

  lemma RunOf(s: string, n: nat)
    requires n < |s| && s[n] != '\n' && forall i :: 0 <= i < n ==> s[i] == '\n'
    ensures NewlineRun(s) == n
  {
  }

  /** A run of newlines between other characters becomes one of at most two, and the rest is collapsed apart. */
  lemma {:induction false} RunBecomesTwo(before: string, n: nat, after: string)
    requires before == "" || before[|before| - 1] != '\n'
    requires n > 0 && (after == "" || after[0] != '\n')
    ensures Collapse(before + (Newlines(n) + after)) ==
            Collapse(before) + (Newlines(if n > 2 then 2 else n) + Collapse(after))
    decreases |before|
  {
    hide TripleAt, Newlines, Collapse;
    var rest := Newlines(n) + after;
    if before == "" {
      assert before + rest == rest && rest[n..] == after;
      CollapseRun(rest, n);
      assert Collapse("") == "" by { CollapseEmpty(); }
      assert "" + Collapse(rest) == Collapse(rest);
    } else {
      var run := if before[0] == '\n' then NewlineRun(before) else 1;
      var head := if before[0] != '\n' then before[..1] else Newlines(if run > 2 then 2 else run);
      CollapseStep(before, run);
      assert run <= |before|;
      StepOfAppend(before, run, rest);
      RunBecomesTwo(before[run..], n, after);
      var tail := Newlines(if n > 2 then 2 else n) + Collapse(after);
      assert head + (Collapse(before[run..]) + tail) == (head + Collapse(before[run..])) + tail;
    }
  }

  lemma CollapseEmpty()
    ensures Collapse("") == ""
  {
  }

  lemma CollapseRun(s: string, n: nat)
    requires 0 < n <= |s| && (forall i :: 0 <= i < n ==> s[i] == '\n') && (n < |s| ==> s[n] != '\n')
    ensures Collapse(s) == Newlines(if n > 2 then 2 else n) + Collapse(s[n..])
  {
    assert NewlineRun(s) == n;
  }

  lemma CollapseStep(s: string, run: nat)
    requires s != "" && run == if s[0] == '\n' then NewlineRun(s) else 1
    ensures 0 < run <= |s|
    ensures Collapse(s) ==
            (if s[0] != '\n' then s[..1] else Newlines(if run > 2 then 2 else run)) + Collapse(s[run..])
  {
    assert s[..1] == [s[0]];
  }

  /** What follows other characters does not change how they begin. */
  lemma StepOfAppend(s: string, run: nat, rest: string)
    requires s != "" && s[|s| - 1] != '\n' && run == if s[0] == '\n' then NewlineRun(s) else 1
    ensures 0 < run <= |s|
    ensures Collapse(s + rest) ==
            (if s[0] != '\n' then s[..1] else Newlines(if run > 2 then 2 else run)) + Collapse(s[run..] + rest)
  {
    hide Collapse;
    var all := s + rest;
    if s[0] == '\n' {
      RunOf(all, run);
    }
    assert all[run..] == s[run..] + rest && all[..1] == s[..1];
    CollapseStep(all, run);
  }

  // --- Decimal numbers -----------------------------------------------------------------------------

  predicate IsDigit(c: char)
  {
    '0' <= c <= '9'
  }

  function Decimal(n: nat): (s: string)
    ensures s != "" && forall c :: c in s ==> IsDigit(c)
  {
    var digit := ['0' + (n % 10) as char];
    if n < 10 then digit else Decimal(n / 10) + digit
  }

  function DecimalValue(s: string): nat
    requires forall c :: c in s ==> IsDigit(c)
  {
    if s == "" then 0
    else
      var last := s[|s| - 1];
      assert last in s && IsDigit(last);
      DecimalValue(s[..|s| - 1]) * 10 + (last as int - '0' as int)
  }

  lemma {:induction false} DecimalRoundTrip(n: nat)
    ensures DecimalValue(Decimal(n)) == n
  {
    if n >= 10 {
      DecimalRoundTrip(n / 10);
      assert Decimal(n)[..|Decimal(n)| - 1] == Decimal(n / 10);
    }
  }

  /** Decimal notation: the last digit is the remainder by ten, and no number but 0 starts with a 0. */
  lemma {:induction false} DecimalNotation(n: nat, digit: nat)
    requires digit < 10
    ensures n > 0 ==> Decimal(n * 10 + digit) == Decimal(n) + ["0123456789"[digit]]
    ensures Decimal(digit) == ["0123456789"[digit]]
    ensures Decimal(n)[0] == '0' ==> n == 0
  {
    if n >= 10 {
      DecimalNotation(n / 10, 0);
    }
  }
}
