/** Day 1, part 1: a line's calibration value is made of its first and last
    digit. A line without any digit yields `NaN` in the source, which then
    poisons the whole sum; the model carries that as `None`. */
module Calibration {
  import opened Common

  /** `line.replace(/\D/g, '')`: the digit characters of the line, in order. */
  function Digits(line: string): (r: string)
    ensures |r| <= |line|
  {
    if line == [] then []
    else Digits(line[..|line| - 1]) + (if IsDigit(line[|line| - 1]) then [line[|line| - 1]] else [])
  }

  /** Only digits survive. */
  lemma {:induction false} DigitsAreDigits(line: string)
    ensures forall i :: 0 <= i < |Digits(line)| ==> IsDigit(Digits(line)[i])
  {
    if line != [] {
      DigitsAreDigits(line[..|line| - 1]);
    }
  }

  /** Filtering distributes over concatenation, so the digits keep the order
      they have in the line. */
  lemma {:induction false} DigitsAppend(a: string, b: string)
    ensures Digits(a + b) == Digits(a) + Digits(b)
  {
    if b == [] {
      assert a + b == a;
    } else {
      assert (a + b)[..|a + b| - 1] == a + b[..|b| - 1];
      DigitsAppend(a, b[..|b| - 1]);
    }
  }

  /** The first character is kept when it is a digit. */
  lemma DigitsCons(c: char, rest: string)
    ensures Digits([c] + rest) == (if IsDigit(c) then [c] else []) + Digits(rest)
  {
    DigitsAppend([c], rest);
    DigitsOfOne(c);
  }

  /** A digit is kept, any other character dropped. */
  lemma DigitsOfOne(c: char)
    ensures Digits([c]) == if IsDigit(c) then [c] else []
  {
    assert [c][..0] == [];
  }

  /** The value of a string of digits: `parseInt` of its first and last
      character, `NaN` when there is none. */
  function CalibrationValue(digits: string): (r: Option<int>)
    requires forall i :: 0 <= i < |digits| ==> IsDigit(digits[i])
    ensures r.Some? <==> digits != []
    ensures r.Some? ==> 0 <= r.value <= 99
  {
    if digits == [] then None
    else Some(10 * DigitValue(digits[0]) + DigitValue(digits[|digits| - 1]))
  }

  /** A single digit is both the first and the last one. */
  lemma SingleDigit(c: char)
    requires IsDigit(c)
    ensures CalibrationValue([c]) == Some(11 * DigitValue(c))
  {
  }

  /** The value of one line. */
  function LineTotal(line: string): (r: Option<int>)
  {
    DigitsAreDigits(line);
    CalibrationValue(Digits(line))
  }

  function LineTotals(lines: seq<string>): (r: seq<Option<int>>)
    ensures |r| == |lines|
  {
    seq(|lines|, i requires 0 <= i < |lines| => LineTotal(lines[i]))
  }

  /** `findSolution` over the lines of the input. */
  function FindSolution(lines: seq<string>): Option<int>
  {
    SumOfValues(LineTotals(lines))
  }

  /** The answer is a number exactly when every line holds a digit, and then
      it is at most 99 per line. */
  lemma SolutionBounds(lines: seq<string>)
    ensures FindSolution(lines).Some? <==> forall i :: 0 <= i < |lines| ==> Digits(lines[i]) != []
    ensures FindSolution(lines).Some? ==> 0 <= FindSolution(lines).value <= 99 * |lines|
  {
    var totals := LineTotals(lines);
    SumOfValuesIs(totals);
    forall i | 0 <= i < |lines|
      ensures totals[i].Some? <==> Digits(lines[i]) != []
    {
      DigitsAreDigits(lines[i]);
    }
    if FindSolution(lines).Some? {
      var all := seq(|totals|, i requires 0 <= i < |totals| => totals[i].value);
      SumBounded(all, 99);
    }
  }

  lemma {:induction false} SumBounded(s: seq<int>, bound: int)
    requires forall i :: 0 <= i < |s| ==> 0 <= s[i] <= bound
    ensures 0 <= Sum(s) <= bound * |s|
  {
    if s != [] {
      SumBounded(s[..|s| - 1], bound);
    }
  }
}

/** Day 1, part 2: spelled-out digits count as digits. The line is consumed
    one character at a time; at each position the first table entry that is
    a prefix of the rest of the line contributes its digit, so words that
    share letters ("eightwo") both count. */
module CalibrationWords {
  import opened Common
  import Calibration

  /** The keys of `digitLookup`, in the order of the regular expression's
      alternatives: the digits 1-9, then the words one..nine. */
  const Lookup: seq<string> := [
    "1", "2", "3", "4", "5", "6", "7", "8", "9",
    "one", "two", "three", "four", "five", "six", "seven", "eight", "nine"
  ]

  /** The value `digitLookup` maps the `k`-th key to. */
  function DigitOf(k: nat): (c: char)
    ensures IsNonZeroDigit(c)
  {
    ((k % 9) + '1' as int) as char
  }

  predicate IsNonZeroDigit(c: char) { '1' <= c <= '9' }

  /** The digit contributed by the start of `line`: the value of the first
      table entry, from entry `k` on, that `line` starts with. */
  function MatchFrom(line: string, k: nat): (r: string)
    requires k <= |Lookup|
    ensures |r| <= 1
    decreases |Lookup| - k
  {
    if k == |Lookup| then []
    else if Lookup[k] <= line then [DigitOf(k)]
    else MatchFrom(line, k + 1)
  }

  /** The converted line: one match attempt per start offset. */
  function Converted(line: string): (r: string)
    ensures |r| <= |line|
  {
    if line == [] then [] else MatchFrom(line, 0) + Converted(line[1..])
  }

  /** A match is always one of the digits 1-9. */
  lemma {:induction false} MatchIsDigit(line: string, k: nat)
    requires k <= |Lookup|
    ensures forall i :: 0 <= i < |MatchFrom(line, k)| ==> IsNonZeroDigit(MatchFrom(line, k)[i])
    decreases |Lookup| - k
  {
    if k < |Lookup| && !(Lookup[k] <= line) {
      MatchIsDigit(line, k + 1);
    }
  }

  /** The converted line holds only the digits 1-9. */
  lemma {:induction false} ConvertedIsDigits(line: string)
    ensures forall i :: 0 <= i < |Converted(line)| ==> IsNonZeroDigit(Converted(line)[i])
  {
    if line != [] {
      MatchIsDigit(line, 0);
      ConvertedIsDigits(line[1..]);
    }
  }

  /** `replaceWordsWithNumbers`: drops the first character of `line` until it
      is empty, appending the digit matched at each step. */
  method ReplaceWordsWithNumbers(input: string) returns (result: string)
    ensures result == Converted(input)
  {
    var line := input;
    result := [];
    while |line| > 0
      invariant result + Converted(line) == Converted(input)
    {
      result := result + MatchFrom(line, 0);
      line := line[1..];
    }
  }

  /** A line that starts with a digit 1-9 contributes exactly that digit. */
  lemma {:induction false} MatchDigit(line: string)
    requires line != [] && IsNonZeroDigit(line[0])
    ensures MatchFrom(line, 0) == [line[0]]
  {
    var k := line[0] as int - '1' as int;
    assert Lookup[k] == [line[0]] && DigitOf(k) == line[0];
    assert Lookup[k] <= line;
    forall j | 0 <= j < k
      ensures !(Lookup[j] <= line)
    {
      assert Lookup[j][0] != line[0];
    }
    MatchSkips(line, 0, k);
  }

  /** Entries before `k` that are no prefix are passed over. */
  lemma {:induction false} MatchSkips(line: string, from: nat, k: nat)
    requires from <= k < |Lookup| && Lookup[k] <= line
    requires forall j :: from <= j < k ==> !(Lookup[j] <= line)
    ensures MatchFrom(line, from) == [DigitOf(k)]
    decreases k - from
  {
    if from < k {
      MatchSkips(line, from + 1, k);
    }
  }

  /** A line made of the digits 1-9 only is left as it is. */
  lemma {:induction false} ConvertedDigits(line: string)
    requires forall i :: 0 <= i < |line| ==> IsNonZeroDigit(line[i])
    ensures Converted(line) == line
  {
    if line != [] {
      MatchDigit(line);
      ConvertedDigits(line[1..]);
    }
  }

  /** Without letters and zeros, part 2 reads the same digits as part 1. */
  lemma {:induction false} AgreesWithDigits(line: string)
    requires forall i :: 0 <= i < |line| ==> !('a' <= line[i] <= 'z') && line[i] != '0'
    ensures Converted(line) == Calibration.Digits(line)
  {
    if line != [] {
      var c, rest := line[0], line[1..];
      var d := if IsDigit(c) then [c] else [];
      assert Converted(line) == d + Converted(rest) by {
        MatchAgrees(line);
      }
      assert Calibration.Digits(line) == d + Calibration.Digits(rest) by {
        Calibration.DigitsCons(c, rest);
        assert [c] + rest == line;
      }
      AgreesWithDigits(rest);
    }
  }

  /** Without a leading letter, only a leading digit 1-9 is matched. */
  lemma MatchAgrees(line: string)
    requires line != [] && !('a' <= line[0] <= 'z') && line[0] != '0'
    ensures MatchFrom(line, 0) == if IsDigit(line[0]) then [line[0]] else []
  {
    if IsNonZeroDigit(line[0]) {
      assert IsDigit(line[0]);
      MatchDigit(line);
    } else {
      assert !IsDigit(line[0]);
      NoMatch(line, 0);
    }
  }

  /** A line starting with neither a digit 1-9 nor a letter matches nothing. */
  lemma {:induction false} NoMatch(line: string, from: nat)
    requires from <= |Lookup|
    requires line != [] && !IsNonZeroDigit(line[0]) && !('a' <= line[0] <= 'z')
    ensures MatchFrom(line, from) == []
    decreases |Lookup| - from
  {
    if from < |Lookup| {
      assert Lookup[from][0] != line[0];
      NoMatch(line, from + 1);
    }
  }

  /** Words that share a letter both count. */
  lemma Overlapping()
    ensures Converted("eightwo") == "82"
  {
    ConvertedIghtwo();
    StartsWithEight("eightwo");
    assert "eightwo"[1..] == "ightwo";
  }

  /** The letters left of "two" contribute nothing. */
  lemma ConvertedIghtwo()
    ensures Converted("ightwo") == "2"
  {
    ConvertedGhtwo();
    NoEntryStarts("ightwo");
    assert "ightwo"[1..] == "ghtwo";
  }

  lemma ConvertedGhtwo()
    ensures Converted("ghtwo") == "2"
  {
    ConvertedTwo();
    assert Converted("htwo") == "2" by {
      NoEntryStarts("htwo");
      assert "htwo"[1..] == "two";
    }
    NoEntryStarts("ghtwo");
    assert "ghtwo"[1..] == "htwo";
  }

  lemma ConvertedTwo()
    ensures Converted("two") == "2"
  {
    assert Converted("o") == [] by {
      forall j | 0 <= j < |Lookup|
        ensures !(Lookup[j] <= "o")
      {
        LookupShape(j);
      }
      NoEntryFrom("o", 0);
      assert "o"[1..] == [];
    }
    assert Converted("wo") == [] by {
      NoEntryStarts("wo");
      assert "wo"[1..] == "o";
    }
    StartsWithTwo("two");
    assert "two"[1..] == "wo";
  }

  /** "two" is the first entry a line starting with it matches. */
  lemma StartsWithTwo(line: string)
    requires "two" <= line
    ensures MatchFrom(line, 0) == "2"
  {
    forall j | 0 <= j < 10
      ensures !(Lookup[j] <= line)
    {
      assert Lookup[j][0] != 't';
    }
    MatchSkips(line, 0, 10);
  }

  /** "eight" is the first entry a line starting with it matches. */
  lemma StartsWithEight(line: string)
    requires "eight" <= line
    ensures MatchFrom(line, 0) == "8"
  {
    forall j | 0 <= j < 16
      ensures !(Lookup[j] <= line)
    {
      assert Lookup[j][0] != 'e';
    }
    MatchSkips(line, 0, 16);
  }

  /** Every key is non-empty and starts with a digit or a word's first
      letter; the words are at least three letters long. */
  lemma LookupShape(j: nat)
    requires j < |Lookup|
    ensures Lookup[j] != [] && Lookup[j][0] in "123456789otfsen"
    ensures j < 9 ==> Lookup[j] == [DigitOf(j)]
    ensures j >= 9 ==> |Lookup[j]| >= 3
  {
  }

  /** A line whose first character starts no table entry contributes nothing. */
  lemma NoEntryStarts(line: string)
    requires line != [] && line[0] !in "123456789otfsen"
    ensures MatchFrom(line, 0) == []
  {
    forall j | 0 <= j < |Lookup|
      ensures !(Lookup[j] <= line)
    {
      LookupShape(j);
    }
    NoEntryFrom(line, 0);
  }

  /** A line that starts with no table entry contributes nothing. */
  lemma {:induction false} NoMatchLetters(line: string)
    requires forall j :: 0 <= j < |Lookup| ==> !(Lookup[j] <= line)
    ensures MatchFrom(line, 0) == []
  {
    NoEntryFrom(line, 0);
  }

  lemma {:induction false} NoEntryFrom(line: string, from: nat)
    requires from <= |Lookup|
    requires forall j :: from <= j < |Lookup| ==> !(Lookup[j] <= line)
    ensures MatchFrom(line, from) == []
    decreases |Lookup| - from
  {
    if from < |Lookup| {
      NoEntryFrom(line, from + 1);
    }
  }

  /** The value of a line in part 2: first and last converted character. */
  function LineTotal(line: string): (r: Option<int>)
    ensures r.Some? ==> 11 <= r.value <= 99
  {
    var digits := Converted(line);
    ConvertedIsDigits(line);
    assert forall i :: 0 <= i < |digits| ==> IsDigit(digits[i]);
    Calibration.CalibrationValue(digits)
  }

  /** `findSolution` of part 2. */
  function FindSolution(lines: seq<string>): Option<int>
  {
    SumOfValues(seq(|lines|, i requires 0 <= i < |lines| => LineTotal(lines[i])))
  }

  /** On lines without letters and zeros both parts give the same answer. */
  lemma PartsAgree(lines: seq<string>)
    requires forall k, i :: 0 <= k < |lines| && 0 <= i < |lines[k]| ==>
      !('a' <= lines[k][i] <= 'z') && lines[k][i] != '0'
    ensures FindSolution(lines) == Calibration.FindSolution(lines)
  {
    var two := seq(|lines|, i requires 0 <= i < |lines| => LineTotal(lines[i]));
    forall k | 0 <= k < |lines|
      ensures two[k] == Calibration.LineTotals(lines)[k]
    {
      AgreesWithDigits(lines[k]);
    }
    assert two == Calibration.LineTotals(lines);
  }
}
