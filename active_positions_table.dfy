/** The progress column of the active positions table: `extractProgressParts` splits a
    progress string such as `'TP1 - 60%'` into a label and a percentage with the regular
    expression `^(.+?)\s*-\s*(\d+)%$`, falling back to the whole string and 0 when it
    does not match, and the bar is green exactly for 100%.

    The regular expression is modelled twice: as a direct scan (`MatchProgress`, which
    tries the lazy group 1 at lengths 1, 2, ... as a backtracking matcher does) and as a
    declarative description of what a match is (`Splits`); the two are proved to agree,
    including the laziness of group 1. */
module ActivePositionsTable {
  import opened Wrappers
  import opened Decimal
  import opened Text

  // ---------------------------------------------------------------------------------
  // The tail `\s*-\s*(\d+)%$`
  // ---------------------------------------------------------------------------------

  /** `r` is white space, a dash, white space, the digits `d` and a final `%`. */
  ghost predicate TailShape(r: string, w1: string, w2: string, d: string) {
    r == w1 + "-" + w2 + d + "%" && AllSpace(w1) && AllSpace(w2) && d != [] && AllDigits(d)
  }

  /** `r` matches `\s*-\s*(\d+)%$` with `d` as the captured digits. */
  ghost predicate TailMatches(r: string, d: string) {
    exists w1, w2 :: TailShape(r, w1, w2, d)
  }

  /** `(\d+)%$`: the rest is one or more digits and a final `%`. */
  function ScanDigits(r: string): (d: Option<string>)
    ensures d.Some? ==> d.value != [] && AllDigits(d.value) && r == d.value + "%"
  {
    if |r| >= 2 && r[|r| - 1] == '%' && AllDigits(r[..|r| - 1]) then Some(r[..|r| - 1]) else None
  }

  /** `\s*(\d+)%$` after the dash: white space is skipped (no digit is white space, so
      the greedy `\s*` never has to give a character back). */
  function ScanAfterDash(r: string): (d: Option<string>)
    ensures d.Some? ==> d.value != [] && AllDigits(d.value)
  {
    if r != [] && IsSpace(r[0]) then ScanAfterDash(r[1..]) else ScanDigits(r)
  }

  /** `\s*-\s*(\d+)%$`: white space is skipped up to the dash. */
  function TailDigits(r: string): (d: Option<string>)
    ensures d.Some? ==> d.value != [] && AllDigits(d.value)
  {
    if r == [] then None
    else if IsSpace(r[0]) then TailDigits(r[1..])
    else if r[0] == '-' then ScanAfterDash(r[1..])
    else None
  }

  lemma {:induction false} ScanAfterDashSound(r: string, d: string)
    requires ScanAfterDash(r) == Some(d)
    ensures exists w2 :: AllSpace(w2) && r == w2 + d + "%" && d != [] && AllDigits(d)
  {
    if r != [] && IsSpace(r[0]) {
      ScanAfterDashSound(r[1..], d);
      var w2 :| AllSpace(w2) && r[1..] == w2 + d + "%";
      assert r == [r[0]] + w2 + d + "%";
      assert AllSpace([r[0]] + w2);
    } else {
      assert r == [] + d + "%";
    }
  }

  lemma {:induction false} TailDigitsSound(r: string, d: string)
    requires TailDigits(r) == Some(d)
    ensures TailMatches(r, d)
  {
    if IsSpace(r[0]) {
      TailDigitsSound(r[1..], d);
      var w1, w2 :| TailShape(r[1..], w1, w2, d);
      assert r == [r[0]] + w1 + "-" + w2 + d + "%";
      assert TailShape(r, [r[0]] + w1, w2, d);
    } else {
      ScanAfterDashSound(r[1..], d);
      var w2 :| AllSpace(w2) && r[1..] == w2 + d + "%" && d != [] && AllDigits(d);
      assert r == [] + "-" + w2 + d + "%";
      assert TailShape(r, [], w2, d);
    }
  }

  lemma {:induction false} ScanAfterDashComplete(w2: string, d: string)
    requires AllSpace(w2) && d != [] && AllDigits(d)
    ensures ScanAfterDash(w2 + d + "%") == Some(d)
  {
    var r := w2 + d + "%";
    if w2 != [] {
      assert r[1..] == w2[1..] + d + "%";
      ScanAfterDashComplete(w2[1..], d);
    } else {
      assert r == d + "%";
      assert !IsSpace(d[0]);
      assert r[..|r| - 1] == d;
    }
  }

  lemma {:induction false} TailDigitsComplete(r: string, w1: string, w2: string, d: string)
    requires TailShape(r, w1, w2, d)
    ensures TailDigits(r) == Some(d)
  {
    if w1 != [] {
      assert r[1..] == w1[1..] + "-" + w2 + d + "%";
      assert TailShape(r[1..], w1[1..], w2, d);
      TailDigitsComplete(r[1..], w1[1..], w2, d);
    } else {
      assert r[1..] == w2 + d + "%";
      ScanAfterDashComplete(w2, d);
    }
  }

  /** The scan of the tail accepts exactly the tails the regular expression accepts, and
      captures the same digits. */
  lemma TailDigitsCorrect(r: string, d: string)
    ensures TailDigits(r) == Some(d) <==> TailMatches(r, d)
  {
    if TailDigits(r) == Some(d) {
      TailDigitsSound(r, d);
    }
    if TailMatches(r, d) {
      var w1, w2 :| TailShape(r, w1, w2, d);
      TailDigitsComplete(r, w1, w2, d);
    }
  }

  // ---------------------------------------------------------------------------------
  // The whole expression `^(.+?)\s*-\s*(\d+)%$`
  // ---------------------------------------------------------------------------------

  /** Group 1 is `s[..n]` (at least one character, none of them a line terminator, as
      `.` requires) and the rest matches the tail with captured digits `d`. */
  ghost predicate Splits(s: string, n: nat, d: string) {
    1 <= n <= |s| && NoLineTerminator(s[..n]) && TailMatches(s[n..], d)
  }

  /** The lazy group 1: try lengths `n`, `n + 1`, ... and stop at the first whose rest
      matches the tail, or give up at the first line terminator (which `.` cannot pass). */
  function FindSplit(s: string, n: nat): (r: Option<nat>)
    requires 1 <= n <= |s| + 1 && NoLineTerminator(s[..n - 1])
    ensures r.Some? ==> n <= r.value <= |s| && NoLineTerminator(s[..r.value])
                        && TailDigits(s[r.value..]).Some?
    ensures r.Some? ==> forall k :: n <= k < r.value ==> TailDigits(s[k..]).None?
    ensures r.None? ==> forall k :: n <= k <= |s| && NoLineTerminator(s[..k]) ==> TailDigits(s[k..]).None?
    decreases |s| + 1 - n
  {
    if n > |s| || IsLineTerminator(s[n - 1]) then
      assert forall k :: n <= k <= |s| ==> s[..k][n - 1] == s[n - 1];
      None
    else
      assert s[..n] == s[..n - 1] + [s[n - 1]];
      if TailDigits(s[n..]).Some? then Some(n) else FindSplit(s, n + 1)
  }

  datatype Groups = Groups(group1: string, group2: string)

  /** `progress.match(/^(.+?)\s*-\s*(\d+)%$/)`: the two groups, or no match. */
  function MatchProgress(s: string): (m: Option<Groups>)
    ensures m.Some? ==> 1 <= |m.value.group1| < |s| && m.value.group1 == s[..|m.value.group1|]
  {
    assert s[..0] == [];
    assert TailDigits(s[|s|..]).None?;
    match FindSplit(s, 1)
    case None => None
    case Some(n) => Some(Groups(s[..n], TailDigits(s[n..]).value))
  }

  /** The scan is the regular expression: a match exists exactly when some split does;
      the groups it returns form a split; and group 1 is the shortest one (lazy `+?`). */
  lemma MatchProgressCorrect(s: string)
    ensures MatchProgress(s).None? <==> forall n: nat, d: string :: !Splits(s, n, d)
    ensures MatchProgress(s).Some? ==>
              var g := MatchProgress(s).value;
              Splits(s, |g.group1|, g.group2)
              && forall n: nat, d: string :: n < |g.group1| ==> !Splits(s, n, d)
  {
    assert s[..0] == [];
    var r := FindSplit(s, 1);
    if r.None? {
      forall n: nat, d: string | Splits(s, n, d)
        ensures false
      {
        TailDigitsCorrect(s[n..], d);
      }
    } else {
      var n := r.value;
      var d := TailDigits(s[n..]).value;
      assert s[..n][..n] == s[..n];
      TailDigitsCorrect(s[n..], d);
      assert MatchProgress(s) == Some(Groups(s[..n], d));
      assert Splits(s, n, d);
      forall k: nat, e: string | k < n && Splits(s, k, e)
        ensures false
      {
        TailDigitsCorrect(s[k..], e);
      }
    }
  }

  // ---------------------------------------------------------------------------------
  // extractProgressParts and the bar colour
  // ---------------------------------------------------------------------------------

  /** `name` is the returned `label` (a reserved word in Dafny). */
  datatype ProgressParts = ProgressParts(name: string, percent: nat)

  /** `extractProgressParts`: on a match, group 1 trimmed and `parseInt(group 2, 10)`;
      otherwise the input unchanged and 0. The name is the input itself exactly when the
      string does not match, and is never longer than the input. */
  function ExtractProgressParts(progress: string): (parts: ProgressParts)
    ensures |parts.name| <= |progress|
    ensures parts.name == progress <==> MatchProgress(progress).None?
    ensures MatchProgress(progress).None? ==> parts.percent == 0
  {
    match MatchProgress(progress)
    case Some(g) => ProgressParts(Trim(g.group1), DigitsValue(g.group2))
    case None => ProgressParts(progress, 0)
  }

  /** What `extractProgressParts` returns, stated against the regular expression: with a
      split, the trimmed shortest group 1 and the value of the digits before `%`;
      without one, the fallback. */
  lemma ExtractProgressPartsCorrect(progress: string)
    ensures (forall n: nat, d: string :: !Splits(progress, n, d))
            ==> ExtractProgressParts(progress) == ProgressParts(progress, 0)
    ensures forall n: nat, d: string ::
              Splits(progress, n, d) && (forall k: nat, e: string :: k < n ==> !Splits(progress, k, e))
              ==> ExtractProgressParts(progress) == ProgressParts(Trim(progress[..n]), DigitsValue(d))
  {
    MatchProgressCorrect(progress);
    forall n: nat, d: string | Splits(progress, n, d) && (forall k: nat, e: string :: k < n ==> !Splits(progress, k, e))
      ensures ExtractProgressParts(progress) == ProgressParts(Trim(progress[..n]), DigitsValue(d))
    {
      var g := MatchProgress(progress).value;
      assert |g.group1| == n;
      TailDigitsCorrect(progress[n..], g.group2);
      TailDigitsCorrect(progress[n..], d);
    }
  }

  /** The dash of the tail after a split is the last dash of the whole string. */
  lemma SplitDashIsLast(s: string, n: nat, w1: string, w2: string, d: string)
    requires n <= |s| && TailShape(s[n..], w1, w2, d)
    ensures n + |w1| < |s| && s[n + |w1|] == '-' && s[..n + |w1|] == s[..n] + w1
    ensures forall j :: n + |w1| < j < |s| ==> s[j] != '-'
  {
    var rest := w2 + d + "%";
    assert s == s[..n] + w1 + "-" + rest;
    forall j | n + |w1| < j < |s|
      ensures s[j] != '-'
    {
      var i := j - n - |w1| - 1;
      assert s[j] == rest[i];
      if i < |w2| {
        assert rest[i] == w2[i];
      } else if i < |w2| + |d| {
        assert rest[i] == d[i - |w2|];
      }
    }
  }

  /** On a match, the label is the text before the last dash of the string, trimmed. */
  lemma LabelBeforeLastDash(progress: string)
    requires MatchProgress(progress).Some?
    ensures exists k :: 0 <= k < |progress| && progress[k] == '-'
                        && (forall j :: k < j < |progress| ==> progress[j] != '-')
                        && ExtractProgressParts(progress).name == Trim(progress[..k])
  {
    MatchProgressCorrect(progress);
    var g := MatchProgress(progress).value;
    var n := |g.group1|;
    var w1, w2 :| TailShape(progress[n..], w1, w2, g.group2);
    SplitDashIsLast(progress, n, w1, w2, g.group2);
    TrimIgnoresTrailingSpace(g.group1, w1);
  }

  /** A string with no dash after its first character has no split (group 1 takes at
      least one character and the tail needs a dash), so it falls back: `'-5%'` is one. */
  lemma NoLaterDashFallsBack(progress: string)
    requires forall j :: 1 <= j < |progress| ==> progress[j] != '-'
    ensures ExtractProgressParts(progress) == ProgressParts(progress, 0)
  {
    forall n: nat, d: string | Splits(progress, n, d)
      ensures false
    {
      var w1, w2 :| TailShape(progress[n..], w1, w2, d);
      SplitDashIsLast(progress, n, w1, w2, d);
    }
    ExtractProgressPartsCorrect(progress);
  }

  lemma LoneDashFallsBack(s: string)
    requires s == "-5%"
    ensures ExtractProgressParts(s) == ProgressParts(s, 0)
  {
    NoLaterDashFallsBack(s);
  }

  /** When `n` is the first length whose rest scans as the tail, that split is the one
      `extractProgressParts` reports. */
  lemma FirstSplitAt(s: string, n: nat, d: string)
    requires 1 <= n <= |s| && NoLineTerminator(s[..n])
    requires TailDigits(s[n..]) == Some(d)
    requires forall k :: 1 <= k < n ==> TailDigits(s[k..]).None?
    ensures ExtractProgressParts(s) == ProgressParts(Trim(s[..n]), DigitsValue(d))
  {
    TailDigitsCorrect(s[n..], d);
    assert Splits(s, n, d);
    forall k: nat, e: string | k < n
      ensures !Splits(s, k, e)
    {
      if 1 <= k {
        TailDigitsCorrect(s[k..], e);
      }
    }
    ExtractProgressPartsCorrect(s);
  }

  /** A label that contains no dash and does not end in white space leaves no tail to
      match at any split inside it. */
  lemma {:induction false} NoTailInLabel(x: string, y: string)
    requires x != [] && !IsSpace(x[|x| - 1])
    requires forall i :: 0 <= i < |x| ==> x[i] != '-'
    ensures TailDigits(x + y).None?
  {
    if IsSpace(x[0]) {
      assert (x + y)[1..] == x[1..] + y;
      NoTailInLabel(x[1..], y);
    }
  }

  /** The format the table's progress strings are written in reads back: a label with
      no dash, no line break and no white space at either end, then `' - '`, digits and
      `%`, gives back that label and the digits' value. */
  lemma ProgressRoundTrip(name: string, digits: string)
    requires name != [] && !IsSpace(name[0]) && !IsSpace(name[|name| - 1])
    requires NoLineTerminator(name) && forall i :: 0 <= i < |name| ==> name[i] != '-'
    requires digits != [] && AllDigits(digits)
    ensures ExtractProgressParts(name + " - " + digits + "%") == ProgressParts(name, DigitsValue(digits))
  {
    var tail := " - " + digits + "%";
    var s := name + tail;
    assert s == name + " - " + digits + "%";
    var n := |name|;
    assert s[..n] == name;
    assert s[n..] == " " + "-" + " " + digits + "%";
    TailDigitsComplete(s[n..], " ", " ", digits);
    forall k | 1 <= k < n
      ensures TailDigits(s[k..]).None?
    {
      assert s[k..] == name[k..] + tail;
      NoTailInLabel(name[k..], tail);
    }
    FirstSplitAt(s, n, digits);
    assert TrimEnd(name) == name;
    assert TrimStart(name) == name;
  }

  /** `'TP1 - 60%'` gives `TP1` and 60. */
  lemma TakeProfitProgress()
    ensures ExtractProgressParts("TP1 - 60%") == ProgressParts("TP1", 60)
  {
    assert "TP1" + " - " + "60" + "%" == "TP1 - 60%";
    assert DigitsValue("60") == 60 by {
      assert "60"[..1] == "6";
    }
    ProgressRoundTrip("TP1", "60");
  }

  /** `'SL Hit - 100%'` gives `SL Hit` and 100. */
  lemma StopLossProgress()
    ensures ExtractProgressParts("SL Hit - 100%") == ProgressParts("SL Hit", 100)
  {
    assert "SL Hit" + " - " + "100" + "%" == "SL Hit - 100%";
    assert DigitsValue("100") == 100 by {
      assert "100"[..2] == "10";
      assert "10"[..1] == "1";
    }
    ProgressRoundTrip("SL Hit", "100");
  }

  /** The percentage is not clamped to 100. */
  lemma PercentNotClamped()
    ensures ExtractProgressParts("TP2 - 250%").percent == 250
  {
    assert "TP2" + " - " + "250" + "%" == "TP2 - 250%";
    assert DigitsValue("250") == 250 by {
      assert "250"[..2] == "25";
      assert "25"[..1] == "2";
    }
    ProgressRoundTrip("TP2", "250");
  }

  datatype BarColor = Green | Yellow

  /** The bar is green for exactly 100% and yellow otherwise. */
  function ProgressBarColor(percent: nat): (c: BarColor)
    ensures c == Green <==> percent == 100
  {
    if percent == 100 then Green else Yellow
  }

  /** `'TP1 - 50%'` gives `TP1` and 50. */
  lemma HalfTakeProfitProgress()
    ensures ExtractProgressParts("TP1 - 50%") == ProgressParts("TP1", 50)
  {
    assert "TP1" + " - " + "50" + "%" == "TP1 - 50%";
    assert DigitsValue("50") == 50 by {
      assert "50"[..1] == "5";
    }
    ProgressRoundTrip("TP1", "50");
  }

  /** Of the three mock positions only the stop-loss hit shows a green bar. */
  lemma MockBarColors()
    ensures ProgressBarColor(ExtractProgressParts("TP1 - 60%").percent) == Yellow
    ensures ProgressBarColor(ExtractProgressParts("TP1 - 50%").percent) == Yellow
    ensures ProgressBarColor(ExtractProgressParts("SL Hit - 100%").percent) == Green
  {
    TakeProfitProgress();
    HalfTakeProfitProgress();
    StopLossProgress();
  }

  /** A bar is green exactly when the string matches and its digits read 100: a string
      that falls back always shows a yellow bar. */
  lemma GreenBarIffComplete(progress: string)
    ensures ProgressBarColor(ExtractProgressParts(progress).percent) == Green
            <==> MatchProgress(progress).Some? && DigitsValue(MatchProgress(progress).value.group2) == 100
  {
  }
}
