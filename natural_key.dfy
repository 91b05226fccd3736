/** The natural-sort key of a reference designator (`convert` and
    `alphanum_key` inside `generate_bom`).

    `re.split('([0-9]+)', s)` cuts `s` into alternating runs
    [text, digits, text, ..., text]; `convert` turns every digit run into an
    int and lower-cases every text run. ASCII only, as Python 2 `str` methods. */
module NaturalKey {
  import opened NaturalOrder

  predicate IsDigit(c: char) { '0' <= c <= '9' }

  predicate IsUpper(c: char) { 'A' <= c <= 'Z' }

  predicate NoDigits(s: string) { forall i :: 0 <= i < |s| ==> !IsDigit(s[i]) }

  predicate AllDigits(s: string) { forall i :: 0 <= i < |s| ==> IsDigit(s[i]) }

  predicate NoUpper(s: string) { forall i :: 0 <= i < |s| ==> !IsUpper(s[i]) }

  /** The runs laid end to end. */
  function Concat(runs: seq<string>): string {
    if runs == [] then [] else runs[0] + Concat(runs[1..])
  }

  /** Length of the longest digit-free prefix of `s`; see TextRunProps. */
  function TextRunLength(s: string): (n: nat)
    ensures n <= |s|
  {
    if s == [] || IsDigit(s[0]) then 0 else 1 + TextRunLength(s[1..])
  }

  /** Length of the longest all-digit prefix of `s`; see DigitRunProps. */
  function DigitRunLength(s: string): (n: nat)
    ensures n <= |s|
  {
    if s == [] || !IsDigit(s[0]) then 0 else 1 + DigitRunLength(s[1..])
  }

  /** The text run is digit-free and is followed by a digit or by nothing. */
  lemma {:induction false} TextRunProps(s: string)
    ensures NoDigits(s[..TextRunLength(s)])
    ensures TextRunLength(s) < |s| ==> IsDigit(s[TextRunLength(s)])
  {
    if s != [] && !IsDigit(s[0]) {
      TextRunProps(s[1..]);
      var n := TextRunLength(s);
      forall i | 0 <= i < n ensures !IsDigit(s[..n][i]) {
        if i > 0 { assert s[..n][i] == s[1..][..n - 1][i - 1]; }
      }
      if n < |s| { assert s[n] == s[1..][n - 1]; }
    }
  }

  /** The digit run is all digits and is followed by a non-digit or by nothing. */
  lemma {:induction false} DigitRunProps(s: string)
    ensures AllDigits(s[..DigitRunLength(s)])
    ensures DigitRunLength(s) < |s| ==> !IsDigit(s[DigitRunLength(s)])
  {
    if s != [] && IsDigit(s[0]) {
      DigitRunProps(s[1..]);
      var n := DigitRunLength(s);
      forall i | 0 <= i < n ensures IsDigit(s[..n][i]) {
        if i > 0 { assert s[..n][i] == s[1..][..n - 1][i - 1]; }
      }
      if n < |s| { assert s[n] == s[1..][n - 1]; }
    }
  }

  /** Runs that alternate text and digits: a digit-free run, then either
      nothing or a non-empty digit run followed by more alternating runs whose
      first text run is non-empty unless it is the last. */
  ghost predicate Alternating(runs: seq<string>)
    decreases |runs|
  {
    && runs != []
    && NoDigits(runs[0])
    && (|runs| > 1 ==>
          && |runs| >= 3 && runs[1] != [] && AllDigits(runs[1])
          && (|runs| > 3 ==> runs[2] != [])
          && Alternating(runs[2..]))
  }

  /** What `re.split` with a capturing group yields: alternating runs whose
      concatenation is `s`. Digit runs are never empty and inner text runs
      are never empty, so each digit run is a maximal one; see SplitRunsUnique. */
  ghost predicate IsRunSplit(s: string, runs: seq<string>) {
    Alternating(runs) && Concat(runs) == s
  }

  /** Alternating runs, by position: odd-many, text at even positions, digits at odd ones. */
  lemma {:induction false} AlternatingShape(runs: seq<string>)
    requires Alternating(runs)
    ensures |runs| % 2 == 1
    ensures forall i :: 0 <= i < |runs| && i % 2 == 0 ==> NoDigits(runs[i])
    ensures forall i :: 0 <= i < |runs| && i % 2 == 1 ==> runs[i] != [] && AllDigits(runs[i])
    ensures forall i :: 0 < i < |runs| - 1 && i % 2 == 0 ==> runs[i] != []
    decreases |runs|
  {
    if |runs| > 1 {
      var tail := runs[2..];
      AlternatingShape(tail);
      assert forall i :: 2 <= i < |runs| ==> runs[i] == tail[i - 2];
    }
  }

  /** `re.split('([0-9]+)', s)`: a text run, then (if any digit is left) a
      digit run and the split of the rest. SplitRunsIsSplit and
      SplitRunsUnique say what it yields. */
  function SplitRuns(s: string): seq<string>
    decreases |s|
  {
    var t := TextRunLength(s);
    if t == |s| then [s]
    else
      var d := t + DigitRunLength(s[t..]);
      [s[..t], s[t..d]] + SplitRuns(s[d..])
  }

  /** The split alternates text and digit runs and loses no character. */
  lemma {:induction false} SplitRunsIsSplit(s: string)
    ensures IsRunSplit(s, SplitRuns(s))
    decreases |s|
  {
    var t := TextRunLength(s);
    if t == |s| {
      TextRunProps(s);
      assert s[..t] == s;
      assert Concat([s]) == s by { assert [s][1..] == []; }
      assert SplitRuns(s) == [s];
    } else {
      var d := t + DigitRunLength(s[t..]);
      RunsAt(s, t, d);
      SplitRunsIsSplit(s[d..]);
      SplitRunsCons(s, t, d);
      ConsRuns(s, s[..t], s[t..d], s[d..], SplitRuns(s[d..]));
    }
  }

  lemma SplitRunsCons(s: string, t: nat, d: nat)
    requires t == TextRunLength(s) < |s| && d == t + DigitRunLength(s[t..])
    ensures SplitRuns(s) == [s[..t], s[t..d]] + SplitRuns(s[d..])
  {
  }

  /** Where a digit is left, the text run, the digit run after it and the rest
      are a digit-free run, a non-empty digit run and a rest that does not
      start with a digit. */
  lemma RunsAt(s: string, t: nat, d: nat)
    requires t == TextRunLength(s) < |s| && d == t + DigitRunLength(s[t..])
    ensures t < d <= |s|
    ensures NoDigits(s[..t]) && s[t..d] != [] && AllDigits(s[t..d])
    ensures s == s[..t] + (s[t..d] + s[d..])
    ensures s[d..] != [] ==> !IsDigit(s[d..][0])
  {
    TextRunProps(s);
    CutThree(s, t, d);
    DigitRunProps(s[t..]);
    assert s[t..][0] == s[t];
  }

  lemma CutThree<T>(s: seq<T>, t: nat, d: nat)
    requires t <= d <= |s|
    ensures s == s[..t] + (s[t..d] + s[d..])
    ensures s[t..][..d - t] == s[t..d]
    ensures d < |s| ==> s[d..][0] == s[t..][d - t]
  {
    assert s[t..] == s[t..d] + s[d..];
  }

  lemma ConcatHead(runs: seq<string>)
    requires runs != []
    ensures Concat(runs) == runs[0] + Concat(runs[1..])
    ensures |runs[0]| <= |Concat(runs)| && Concat(runs)[..|runs[0]|] == runs[0]
  {
  }

  /** Prepending a text run and a digit run to the split of a string that
      does not start with a digit gives the split of the longer string. */
  lemma ConsRuns(s: string, text: string, digits: string, r: string, rest: seq<string>)
    requires s == text + (digits + r)
    requires NoDigits(text) && digits != [] && AllDigits(digits)
    requires IsRunSplit(r, rest)
    requires r != [] ==> !IsDigit(r[0])
    ensures IsRunSplit(s, [text, digits] + rest)
  {
    var runs := [text, digits] + rest;
    assert runs[2..] == rest;
    assert runs[1..] == [digits] + rest && runs[1..][1..] == rest;
    assert Concat(runs) == text + (digits + Concat(rest));
    if |rest| > 1 {
      ConcatHead(rest);
      ConcatHead(rest[1..]);
      assert |r| > |rest[0]| && r[|rest[0]|] == rest[1][0];
    }
  }

  /** A digit-free `head` followed by a digit or by nothing is the text run. */
  lemma {:induction false} TextRunIs(s: string, head: string, more: string)
    requires s == head + more && NoDigits(head) && (more != [] ==> IsDigit(more[0]))
    ensures TextRunLength(s) == |head|
    decreases |head|
  {
    if head != [] {
      assert s[0] == head[0] && s[1..] == head[1..] + more;
      TextRunIs(s[1..], head[1..], more);
    }
  }

  /** An all-digit `head` followed by a non-digit or by nothing is the digit run. */
  lemma {:induction false} DigitRunIs(s: string, head: string, more: string)
    requires s == head + more && AllDigits(head) && (more != [] ==> !IsDigit(more[0]))
    ensures DigitRunLength(s) == |head|
    decreases |head|
  {
    if head != [] {
      assert s[0] == head[0] && s[1..] == head[1..] + more;
      DigitRunIs(s[1..], head[1..], more);
    }
  }

  /** The tail of a split after its first text and digit runs is a split itself. */
  lemma RunSplitTail(s: string, runs: seq<string>)
    requires IsRunSplit(s, runs) && |runs| > 1
    ensures IsRunSplit(Concat(runs[2..]), runs[2..])
    ensures s == runs[0] + (runs[1] + Concat(runs[2..]))
    ensures Concat(runs[2..]) != [] ==> !IsDigit(Concat(runs[2..])[0])
  {
    var tail := runs[2..];
    ConcatHead(runs);
    ConcatHead(runs[1..]);
    assert runs[1..][1..] == tail;
    if Concat(tail) != [] {
      ConcatHead(tail);
      if |tail| == 1 {
        assert Concat(tail[1..]) == [] by { assert tail[1..] == []; }
      }
      assert tail[0] != [];
      assert Concat(tail)[0] == tail[0][0];
    }
  }

  /** A digit-free run, a digit run and a rest that does not start with a
      digit: the first two are the maximal text and digit runs of the whole. */
  lemma SplitHead(s: string, text: string, digits: string, after: string)
    requires s == text + (digits + after)
    requires NoDigits(text) && digits != [] && AllDigits(digits)
    requires after != [] ==> !IsDigit(after[0])
    ensures TextRunLength(s) == |text| < |s|
    ensures DigitRunLength(s[|text|..]) == |digits|
    ensures s[..|text|] == text
    ensures s[|text|..|text| + |digits|] == digits
    ensures s[|text| + |digits|..] == after
  {
    SliceParts(s, text, digits, after);
    TextRunIs(s, text, digits + after);
    DigitRunIs(s[|text|..], digits, after);
  }

  lemma SliceParts(s: string, a: string, b: string, c: string)
    requires s == a + (b + c)
    ensures s[..|a|] == a && s[|a|..] == b + c
    ensures s[|a|..|a| + |b|] == b && s[|a| + |b|..] == c
  {
    assert s[|a|..] == b + c;
    assert s[|a|..][..|b|] == s[|a|..|a| + |b|];
  }

  /** The split is the only decomposition of `s` with these properties, so
      SplitRuns is `re.split` and not merely some alternating cut. */
  lemma {:induction false} SplitRunsUnique(s: string, runs: seq<string>)
    requires IsRunSplit(s, runs)
    ensures runs == SplitRuns(s)
    decreases |s|
  {
    if |runs| == 1 {
      ConcatHead(runs);
      assert Concat(runs[1..]) == [] by { assert runs[1..] == []; }
      assert runs[0] + [] == runs[0];
      TextRunIs(s, runs[0], []);
      assert runs == [s];
    } else {
      RunSplitTail(s, runs);
      var after := Concat(runs[2..]);
      SplitHead(s, runs[0], runs[1], after);
      SplitRunsUnique(after, runs[2..]);
      assert runs == [runs[0], runs[1]] + runs[2..];
    }
  }

  /** Python 2 `str.lower` on one character (ASCII only). */
  function LowerChar(c: char): char {
    if IsUpper(c) then (c as int + 32) as char else c
  }

  function Lower(s: string): (r: string)
    ensures |r| == |s| && NoUpper(r)
    ensures forall i :: 0 <= i < |s| ==> r[i] == LowerChar(s[i])
  {
    seq(|s|, i requires 0 <= i < |s| => LowerChar(s[i]))
  }

  /** `int(digits)`: the decimal value of a string of digits. */
  function DecimalValue(digits: string): nat
    requires AllDigits(digits)
  {
    if digits == [] then 0
    else DecimalValue(digits[..|digits| - 1]) * 10 + (digits[|digits| - 1] as int - '0' as int)
  }

  /** `convert`: an all-digit run becomes its number, anything else its lower-cased text. */
  function Convert(run: string): Atom {
    if run != [] && AllDigits(run) then Num(DecimalValue(run)) else Txt(Lower(run))
  }

  /** `alphanum_key`: one converted atom per run. The key alternates
      lower-case digit-free text and non-negative integers, starting and
      ending with (possibly empty) text. */
  function NatKey(s: string): (k: Key)
    ensures |k| % 2 == 1
    ensures forall i :: 0 <= i < |k| && i % 2 == 0 ==> k[i].Txt? && NoDigits(k[i].s) && NoUpper(k[i].s)
    ensures forall i :: 0 <= i < |k| && i % 2 == 1 ==> k[i].Num? && k[i].n >= 0
  {
    var runs := SplitRuns(s);
    SplitRunsIsSplit(s);
    AlternatingShape(runs);
    var k := seq(|runs|, i requires 0 <= i < |runs| => Convert(runs[i]));
    assert forall i :: 0 <= i < |k| && i % 2 == 0 ==> k[i] == Txt(Lower(runs[i])) by {
      forall i | 0 <= i < |k| && i % 2 == 0 ensures k[i] == Txt(Lower(runs[i])) {
        assert runs[i] == [] || !AllDigits(runs[i]) by {
          if runs[i] != [] { assert !IsDigit(runs[i][0]); }
        }
      }
    }
    k
  }

  /** The key of any string, run by run: given the split of `s` into runs
      (unique by SplitRunsUnique), text runs become their lower-cased text
      and digit runs their decimal value. */
  lemma NatKeyOfSplit(s: string, runs: seq<string>)
    requires IsRunSplit(s, runs)
    ensures |NatKey(s)| == |runs|
    ensures forall i :: 0 <= i < |runs| && i % 2 == 0 ==> NatKey(s)[i] == Txt(Lower(runs[i]))
    ensures forall i :: 0 <= i < |runs| && i % 2 == 1 ==>
              AllDigits(runs[i]) && NatKey(s)[i] == Num(DecimalValue(runs[i]))
  {
    SplitRunsUnique(s, runs);
    AlternatingShape(runs);
    forall i | 0 <= i < |runs| && i % 2 == 0 ensures NatKey(s)[i] == Txt(Lower(runs[i])) {
      assert NatKey(s)[i] == Convert(runs[i]);
      if runs[i] != [] { assert !IsDigit(runs[i][0]); }
    }
    forall i | 0 <= i < |runs| && i % 2 == 1 ensures NatKey(s)[i] == Num(DecimalValue(runs[i])) {
      assert NatKey(s)[i] == Convert(runs[i]);
    }
  }

  /** A string made of one text run, one digit run and one more text run. */
  lemma SplitThree(text: string, digits: string, text2: string)
    requires NoDigits(text) && digits != [] && AllDigits(digits) && NoDigits(text2)
    ensures SplitRuns(text + digits + text2) == [text, digits, text2]
  {
    var runs := [text, digits, text2];
    ConcatThree(text, digits, text2);
    assert runs[2..] == [text2];
    assert IsRunSplit(text + digits + text2, runs);
    SplitRunsUnique(text + digits + text2, runs);
  }

  lemma ConcatThree(a: string, b: string, c: string)
    ensures Concat([a, b, c]) == a + b + c
  {
    var runs := [a, b, c];
    assert runs[1..] == [b, c] && runs[1..][1..] == [c] && runs[1..][1..][1..] == [];
    assert Concat([c]) == c + Concat([]);
    assert Concat([b, c]) == b + Concat([c]);
  }

  lemma NatKeyThree(text: string, digits: string, text2: string)
    requires NoDigits(text) && digits != [] && AllDigits(digits) && NoDigits(text2)
    ensures NatKey(text + digits + text2) == [Txt(Lower(text)), Num(DecimalValue(digits)), Txt(Lower(text2))]
  {
    SplitThree(text, digits, text2);
    assert text == [] || !AllDigits(text) by { if text != [] { assert !IsDigit(text[0]); } }
    assert text2 == [] || !AllDigits(text2) by { if text2 != [] { assert !IsDigit(text2[0]); } }
  }

  lemma LowerR() ensures Lower("R") == "r" && Lower("") == "" {
    assert Lower("R")[0] == 'r';
  }

  lemma KeyOfR01() ensures NatKey("R01") == [Txt("r"), Num(1), Txt("")] {
    NatKeyThree("R", "01", "");
    assert "R" + "01" + "" == "R01";
    LowerR();
    assert DecimalValue("01") == 1 by { assert "01"[..1] == "0"; assert "0"[..0] == ""; }
  }

  lemma KeyOfR1() ensures NatKey("R1") == [Txt("r"), Num(1), Txt("")] {
    NatKeyThree("R", "1", "");
    assert "R" + "1" + "" == "R1";
    LowerR();
    assert DecimalValue("1") == 1 by { assert "1"[..0] == ""; }
  }

  lemma KeyOfLowerR1() ensures NatKey("r1") == [Txt("r"), Num(1), Txt("")] {
    NatKeyThree("r", "1", "");
    assert "r" + "1" + "" == "r1";
    LowerR();
    assert Lower("r") == "r" by { assert Lower("r")[0] == 'r'; }
    assert DecimalValue("1") == 1 by { assert "1"[..0] == ""; }
  }

  lemma KeyOfR2() ensures NatKey("R2") == [Txt("r"), Num(2), Txt("")] {
    NatKeyThree("R", "2", "");
    assert "R" + "2" + "" == "R2";
    LowerR();
    assert DecimalValue("2") == 2 by { assert "2"[..0] == ""; }
  }

  lemma KeyOfR10() ensures NatKey("R10") == [Txt("r"), Num(10), Txt("")] {
    NatKeyThree("R", "10", "");
    assert "R" + "10" + "" == "R10";
    LowerR();
    assert DecimalValue("10") == 10 by { assert "10"[..1] == "1"; assert "1"[..0] == ""; }
  }

  /** Keys can tie: leading zeros and letter case do not count. */
  lemma KeyTies()
    ensures NatKey("R01") == NatKey("R1") == NatKey("r1")
  {
    KeyOfR01();
    KeyOfR1();
    KeyOfLowerR1();
  }

  /** Digit runs compare as numbers: R2 sorts before R10, which text order would reverse. */
  lemma DigitsCompareNumerically()
    ensures KeyLess(NatKey("R2"), NatKey("R10"))
    ensures StrLess("R10", "R2")
  {
    KeyOfR2();
    KeyOfR10();
    var a: Key, b: Key := [Txt("r"), Num(2), Txt("")], [Txt("r"), Num(10), Txt("")];
    assert a[1..] == [Num(2), Txt("")] && b[1..] == [Num(10), Txt("")];
    assert KeyLess(a, b);
    assert "R10"[1..] == "10" && "R2"[1..] == "2";
  }
}
