/** `src/utils/least-common-multiple.ts`: the "least common multiple" of a list
    of numbers, computed by factoring every number, counting each factor, keeping
    the highest count of every factor over all numbers and multiplying the
    factors raised to those counts.

    The factoring loop does not find the prime factors: its primality test only
    remembers the verdict for the last candidate divisor `floor(i / 2)`, which is
    "prime" exactly for the odd numbers from 5 on, and 2 and 3 are never taken
    (the verdict stays undefined). Each accepted divisor is also divided out only
    once. The as-written pipeline is modelled here together with a corrected
    trial division, for which the result is a common multiple of the inputs. */
module Lcm {
  import opened Common

  /** `a` is a positive divisor of `b`. */
  predicate Divides(a: int, b: int)
  {
    a > 0 && b % a == 0
  }

  function Pow(base: int, exponent: nat): int
  {
    if exponent == 0 then 1 else base * Pow(base, exponent - 1)
  }

  /* ---------------------------------------------------------------------- */
  /* getPrimeFactors, as written                                             */

  /** The value of `isPrime` after the inner loop for divisor `i`: the loop runs
      for `j` from 2 while `j <= i / 2` and only its last test survives; for
      `i < 4` it does not run and `isPrime` stays `undefined`, which is falsy. */
  function LastDivisorTest(i: int): bool
  {
    if i < 4 then false else i % (i / 2) != 0
  }

  /** The divisor test accepts exactly the odd numbers from 5 upwards. */
  lemma {:induction false} LastDivisorTestIsOddFrom5(i: int)
    requires i >= 2
    ensures LastDivisorTest(i) <==> i >= 5 && i % 2 == 1
  {
    if i >= 4 {
      var h := i / 2;
      if i % 2 == 0 {
        DivModUnique(2, 0, h);
        assert i == 2 * h;
      } else {
        assert i == 2 * h + 1;
        DivModUnique(2, 1, h);
      }
    }
  }

  /** The factors the outer loop pushes when it resumes at divisor `i` with the
      remaining value `n`: a divisor is taken (and divided out once) when it
      divides the remaining value and passes the divisor test. */
  function FactorsFrom(n: int, i: int): seq<int>
    requires i >= 2
    decreases n - i
  {
    if i > n then []
    else if n % i == 0 && LastDivisorTest(i) then [i] + FactorsFrom(n / i, i + 1)
    else FactorsFrom(n, i + 1)
  }

  /** The inner loop of `getPrimeFactors`. */
  method DivisorTest(i: int) returns (isPrime: bool)
    requires i >= 2
    ensures isPrime == LastDivisorTest(i)
  {
    isPrime := false;
    var j := 2;
    while 2 * j <= i
      invariant 2 <= j && (j > 2 ==> 2 * (j - 1) <= i)
      invariant if j == 2 then !isPrime else isPrime == (i % (j - 1) != 0)
      decreases i - j
    {
      isPrime := i % j != 0;
      j := j + 1;
    }
    if j > 2 {
      assert j - 1 == i / 2;
    }
  }

  /** `getPrimeFactors`. */
  method GetPrimeFactors(integer: int) returns (primeArray: seq<int>)
    ensures primeArray == FactorsFrom(integer, 2)
  {
    primeArray := [];
    var n := integer;
    var i := 2;
    while i <= n
      invariant i >= 2
      invariant primeArray + FactorsFrom(n, i) == FactorsFrom(integer, 2)
      decreases n - i
    {
      if n % i != 0 {
        i := i + 1;
        continue;
      }
      var isPrime := DivisorTest(i);
      if !isPrime {
        i := i + 1;
        continue;
      }
      DivShrinks(n, i);
      primeArray := primeArray + [i];
      n := n / i;
      i := i + 1;
    }
  }

  /** The factors are strictly increasing, at least `i`, and all odd and at
      least 5: 2 and 3 never appear. */
  lemma {:induction false} FactorsFromOrdered(n: int, i: int)
    requires i >= 2
    ensures var f := FactorsFrom(n, i);
            (forall k :: 0 <= k < |f| ==> f[k] >= i && f[k] >= 5 && f[k] % 2 == 1)
            && (forall k :: 0 <= k < |f| - 1 ==> f[k] < f[k + 1])
    decreases n - i
  {
    if i <= n {
      if n % i == 0 && LastDivisorTest(i) {
        LastDivisorTestIsOddFrom5(i);
        DivShrinks(n, i);
        FactorsFromOrdered(n / i, i + 1);
        assert FactorsFrom(n, i) == [i] + FactorsFrom(n / i, i + 1);
      } else {
        FactorsFromOrdered(n, i + 1);
        assert FactorsFrom(n, i) == FactorsFrom(n, i + 1);
      }
    }
  }

  /** Each factor divides the value left when it is taken, so the product of
      the factors divides the input. */
  /** Taking divisor `i` of `n` in front of factors that divide `n / i`
      gives factors that divide `n`. */
  lemma TakenDivisorDivides(n: int, i: int, rest: seq<int>)
    requires i >= 2 && n >= 1 && n % i == 0
    requires Divides(Product(rest), n / i)
    ensures Divides(Product([i] + rest), n)
  {
    ProductCons(i, rest);
    DividesScale(i, Product(rest), n / i);
    assert i * (n / i) == n;
  }

  lemma {:induction false} FactorsFromDivide(n: int, i: int)
    requires i >= 2 && n >= 1
    ensures Divides(Product(FactorsFrom(n, i)), n)
    decreases n - i
  {
    if i > n {
      DivModUnique(n, 0, 1);
    } else if n % i == 0 && LastDivisorTest(i) {
      var q := n / i;
      DivShrinks(n, i);
      DivBelow(n, 1, i);
      FactorsFromDivide(q, i + 1);
      TakenDivisorDivides(n, i, FactorsFrom(q, i + 1));
    } else {
      FactorsFromDivide(n, i + 1);
      assert FactorsFrom(n, i) == FactorsFrom(n, i + 1);
    }
  }

  /** For a number made only of 2s and 3s, no factor is found. */
  lemma FactorsOfFour()
    ensures FactorsFrom(4, 2) == []
  {
    assert LastDivisorTest(4) == false;
    assert FactorsFrom(4, 5) == [];
  }

  /* ---------------------------------------------------------------------- */
  /* Corrected factoring: trial division that divides each factor out fully  */

  function TrialFactors(n: int, i: int): seq<int>
    requires i >= 2
    decreases if n >= 1 then n else 0, n - i
  {
    if i > n then []
    else if n % i == 0 then
      DivLess(n, i);
      [i] + TrialFactors(n / i, i)
    else TrialFactors(n, i + 1)
  }

  lemma DivLess(n: int, i: int)
    requires 2 <= i <= n
    ensures 1 <= n / i < n
  {
    DivBelow(n, n, i);
    MulLess(1, i, n);
    DivShrinks(n, i);
    MulLe(n / i, 0, i);
  }

  /** No number from 2 up to (excluding) `i` divides `n`. */
  predicate NoDivisorBelow(n: int, i: int)
  {
    forall d :: 2 <= d < i ==> n % d != 0
  }

  /** A divisor of `n / i` divides `n` when `i` divides `n`. */
  lemma DivisorOfQuotient(n: int, i: int, d: int)
    requires i > 0 && d > 0 && n % i == 0 && (n / i) % d == 0
    ensures n % d == 0
  {
    var q := n / i;
    var r := q / d;
    assert n == i * q;
    assert q == d * r;
    assert n == (i * r) * d;
    DivModUnique(i * r, 0, d);
  }

  /** The quotient by a divisor keeps having no divisor below `i`. */
  lemma NoDivisorBelowQuotient(n: int, i: int)
    requires i >= 2 && n % i == 0 && NoDivisorBelow(n, i)
    ensures NoDivisorBelow(n / i, i)
  {
    forall d | 2 <= d < i
      ensures (n / i) % d != 0
    {
      if (n / i) % d == 0 {
        DivisorOfQuotient(n, i, d);
      }
    }
  }

  /** A positive value with no divisor below `i > n` is 1. */
  lemma NoDivisorBelowAbove(n: int, i: int)
    requires 1 <= n < i && NoDivisorBelow(n, i)
    ensures n == 1
  {
    DivModUnique(1, 0, n);
  }

  /** Trial division from `i`, on a value with no divisor below `i`, finds a
      factorisation: the factors multiply back to the value. */
  lemma {:induction false} TrialFactorsProduct(n: int, i: int)
    requires i >= 2 && n >= 1 && NoDivisorBelow(n, i)
    ensures Product(TrialFactors(n, i)) == n
    decreases n, n - i
  {
    if i > n {
      NoDivisorBelowAbove(n, i);
      assert TrialFactors(n, i) == [];
    } else if n % i == 0 {
      var q := n / i;
      DivLess(n, i);
      DivExact(n, i);
      NoDivisorBelowQuotient(n, i);
      TrialFactorsProduct(q, i);
      var rest := TrialFactors(q, i);
      assert TrialFactors(n, i) == [i] + rest;
      ProductCons(i, rest);
    } else {
      TrialFactorsProduct(n, i + 1);
      assert TrialFactors(n, i) == TrialFactors(n, i + 1);
    }
  }

  /** Every trial factor is at least 2. */
  lemma {:induction false} TrialFactorsAtLeastTwo(n: int, i: int)
    requires i >= 2
    ensures forall k :: 0 <= k < |TrialFactors(n, i)| ==> TrialFactors(n, i)[k] >= 2
    decreases if n >= 1 then n else 0, n - i
  {
    if i <= n {
      if n % i == 0 {
        DivLess(n, i);
        TrialFactorsAtLeastTwo(n / i, i);
        assert TrialFactors(n, i) == [i] + TrialFactors(n / i, i);
      } else {
        TrialFactorsAtLeastTwo(n, i + 1);
        assert TrialFactors(n, i) == TrialFactors(n, i + 1);
      }
    }
  }

  /** The corrected `getPrimeFactors`: each divisor is divided out as often as
      it divides the remaining value. */
  method GetFactors(integer: int) returns (factors: seq<int>)
    ensures factors == TrialFactors(integer, 2)
  {
    factors := [];
    var n := integer;
    var i := 2;
    while i <= n
      invariant i >= 2
      invariant factors + TrialFactors(n, i) == TrialFactors(integer, 2)
      decreases if n >= 1 then n else 0, n - i
    {
      if n % i == 0 {
        DivLess(n, i);
        assert TrialFactors(n, i) == [i] + TrialFactors(n / i, i);
        factors := factors + [i];
        n := n / i;
      } else {
        assert TrialFactors(n, i) == TrialFactors(n, i + 1);
        i := i + 1;
      }
    }
  }

  /* ---------------------------------------------------------------------- */
  /* groupNumbers                                                            */

  /** `groupNumbers`: the reduce that adds one to the entry of each number. */
  method GroupNumbers(numbers: seq<int>) returns (result: map<int, nat>)
    ensures result == Groups(numbers)
  {
    result := map[];
    for k := 0 to |numbers|
      invariant result == Groups(numbers[..k])
    {
      var number := numbers[k];
      assert numbers[..k + 1][..k] == numbers[..k];
      result := result[number := (if number in result then result[number] else 0) + 1];
    }
    assert numbers[..|numbers|] == numbers;
  }

  /* ---------------------------------------------------------------------- */
  /* Merging: the highest power of every factor                              */

  function Get(m: map<int, nat>, k: int): nat
  {
    if k in m then m[k] else 0
  }

  /** One step of the reduce: every key of `group` is raised to its power there
      when that is higher. */
  function MergeInto(result: map<int, nat>, group: map<int, nat>): map<int, nat>
  {
    map k | k in result.Keys + group.Keys :: Max(Get(result, k), Get(group, k))
  }

  function HighestPowers(groups: seq<map<int, nat>>): map<int, nat>
  {
    if groups == [] then map[]
    else MergeInto(HighestPowers(groups[..|groups| - 1]), groups[|groups| - 1])
  }

  /** The merged map names every factor of every group, with a power at least
      the factor's power in each group. */
  lemma {:induction false} HighestPowersAbove(groups: seq<map<int, nat>>, i: int, k: int)
    requires 0 <= i < |groups| && k in groups[i]
    ensures k in HighestPowers(groups) && groups[i][k] <= HighestPowers(groups)[k]
  {
    var prefix := groups[..|groups| - 1];
    assert HighestPowers(groups) == MergeInto(HighestPowers(prefix), groups[|groups| - 1]);
    if i < |prefix| {
      assert groups[i] == prefix[i];
      HighestPowersAbove(prefix, i, k);
    }
  }

  /** Every entry of the merged map comes from some group that has the factor
      with exactly that power. */
  lemma {:induction false} HighestPowersAttained(groups: seq<map<int, nat>>, k: int)
    requires k in HighestPowers(groups)
    ensures exists i :: 0 <= i < |groups| && k in groups[i] && groups[i][k] == HighestPowers(groups)[k]
  {
    var prefix := groups[..|groups| - 1];
    var last := groups[|groups| - 1];
    assert HighestPowers(groups) == MergeInto(HighestPowers(prefix), last);
    if k in last && last[k] == HighestPowers(groups)[k] {
      assert groups[|groups| - 1] == last;
    } else {
      assert k in HighestPowers(prefix) && HighestPowers(prefix)[k] == HighestPowers(groups)[k];
      HighestPowersAttained(prefix, k);
      var i :| 0 <= i < |prefix| && k in prefix[i] && prefix[i][k] == HighestPowers(prefix)[k];
      assert groups[i] == prefix[i];
    }
  }

  /** Merging one more key of a group into a partial merge. */
  lemma MergeIntoStep(start: map<int, nat>, group: map<int, nat>, todo: set<int>, k: int)
    requires k in todo && todo <= group.Keys
    ensures var r := MergeInto(start, group - todo);
            r[k := Max(Get(r, k), group[k])] == MergeInto(start, group - (todo - {k}))
  {
    var r := MergeInto(start, group - todo);
    var r' := MergeInto(start, group - (todo - {k}));
    assert Get(group - todo, k) == 0;
    assert r[k := Max(Get(r, k), group[k])].Keys == r'.Keys;
  }

  /** The `reduce` over the grouped factors that keeps the highest powers; the
      `forEach` over a group's keys takes them in any order. */
  method MergeHighestPowers(groups: seq<map<int, nat>>) returns (result: map<int, nat>)
    ensures result == HighestPowers(groups)
  {
    result := map[];
    for g := 0 to |groups|
      invariant result == HighestPowers(groups[..g])
    {
      var primeNumbers := groups[g];
      var start := result;
      var todo := primeNumbers.Keys;
      assert primeNumbers - todo == map[];
      assert MergeInto(start, map[]) == start;
      while todo != {}
        invariant todo <= primeNumbers.Keys
        invariant result == MergeInto(start, primeNumbers - todo)
        decreases |todo|
      {
        NonEmptySet(todo);
        var number :| number in todo;
        var power := primeNumbers[number];
        MergeIntoStep(start, primeNumbers, todo, number);
        result := result[number := Max(Get(result, number), power)];
        todo := todo - {number};
      }
      assert primeNumbers - {} == primeNumbers;
      assert groups[..g + 1][..g] == groups[..g];
    }
    assert groups[..|groups|] == groups;
  }

  /* ---------------------------------------------------------------------- */
  /* The product of the powers                                               */

  /** The product of `factor^power` over the entries of `m`, in any order. */
  ghost function PowerProduct(m: map<int, nat>): int
    decreases m.Keys
  {
    if m.Keys == {} then 1
    else
      NonEmptySet(m.Keys);
      var k :| k in m.Keys;
      Pow(k, m[k]) * PowerProduct(m - {k})
  }

  /** The product does not depend on the order the keys are taken in. */
  lemma {:induction false} PowerProductPick(m: map<int, nat>, k: int)
    requires k in m
    ensures PowerProduct(m) == Pow(k, m[k]) * PowerProduct(m - {k})
    decreases m.Keys
  {
    var j :| j in m.Keys && PowerProduct(m) == Pow(j, m[j]) * PowerProduct(m - {j});
    if j != k {
      assert m - {j} - {k} == m - {k} - {j};
      var rest := PowerProduct(m - {j} - {k});
      var pj, pk := Pow(j, m[j]), Pow(k, m[k]);
      PowerProductPick(m - {j}, k);
      assert PowerProduct(m - {j}) == pk * rest;
      PowerProductPick(m - {k}, j);
      assert PowerProduct(m - {k}) == pj * rest;
      MulAssoc(pj, pk, rest);
      MulAssoc(pk, pj, rest);
    }
  }

  /** The final `reduce`: multiply `factor^power` over the keys, starting at 1. */
  method ProductOfPowers(powers: map<int, nat>) returns (result: int)
    ensures result == PowerProduct(powers)
  {
    result := 1;
    var todo := powers;
    while todo.Keys != {}
      invariant result * PowerProduct(todo) == PowerProduct(powers)
      decreases todo.Keys
    {
      NonEmptySet(todo.Keys);
      var number :| number in todo.Keys;
      PowerProductPick(todo, number);
      var p := Pow(number, todo[number]);
      var rest := PowerProduct(todo - {number});
      MulAssoc(result, p, rest);
      result := result * p;
      todo := todo - {number};
    }
  }

  /* ---------------------------------------------------------------------- */
  /* calculateLeastCommonMultiple                                            */

  function MapGroups(factors: seq<seq<int>>): (r: seq<map<int, nat>>)
    ensures |r| == |factors| && forall i :: 0 <= i < |r| ==> r[i] == Groups(factors[i])
  {
    seq(|factors|, i requires 0 <= i < |factors| => Groups(factors[i]))
  }

  /** The result of the source pipeline on `numbers`. */
  ghost function LcmAsWritten(numbers: seq<int>): int
  {
    PowerProduct(HighestPowers(MapGroups(seq(|numbers|, i requires 0 <= i < |numbers| => FactorsFrom(numbers[i], 2)))))
  }

  /** The corrected pipeline: trial division in place of `getPrimeFactors`. */
  ghost function Lcm(numbers: seq<int>): int
  {
    PowerProduct(HighestPowers(MapGroups(seq(|numbers|, i requires 0 <= i < |numbers| => TrialFactors(numbers[i], 2)))))
  }

  /** `calculateLeastCommonMultiple` as written. */
  method CalculateLeastCommonMultipleAsWritten(numbers: seq<int>) returns (leastCommonMultiple: int)
    ensures leastCommonMultiple == LcmAsWritten(numbers)
  {
    var grouped: seq<map<int, nat>> := [];
    for i := 0 to |numbers|
      invariant |grouped| == i
      invariant forall k :: 0 <= k < i ==> grouped[k] == Groups(FactorsFrom(numbers[k], 2))
    {
      var factors := GetPrimeFactors(numbers[i]);
      var group := GroupNumbers(factors);
      grouped := grouped + [group];
    }
    assert grouped == MapGroups(seq(|numbers|, i requires 0 <= i < |numbers| => FactorsFrom(numbers[i], 2)));
    var highest := MergeHighestPowers(grouped);
    leastCommonMultiple := ProductOfPowers(highest);
  }

  /** `calculateLeastCommonMultiple` with the corrected factoring. */
  method CalculateLeastCommonMultiple(numbers: seq<int>) returns (leastCommonMultiple: int)
    ensures leastCommonMultiple == Lcm(numbers)
    ensures forall i :: 0 <= i < |numbers| && numbers[i] >= 1 ==> Divides(numbers[i], leastCommonMultiple)
  {
    var grouped: seq<map<int, nat>> := [];
    for i := 0 to |numbers|
      invariant |grouped| == i
      invariant forall k :: 0 <= k < i ==> grouped[k] == Groups(TrialFactors(numbers[k], 2))
    {
      var factors := GetFactors(numbers[i]);
      var group := GroupNumbers(factors);
      grouped := grouped + [group];
    }
    assert grouped == MapGroups(seq(|numbers|, i requires 0 <= i < |numbers| => TrialFactors(numbers[i], 2)));
    var highest := MergeHighestPowers(grouped);
    leastCommonMultiple := ProductOfPowers(highest);
    forall i | 0 <= i < |numbers| && numbers[i] >= 1
      ensures Divides(numbers[i], leastCommonMultiple)
    {
      LcmIsCommonMultiple(numbers, i);
    }
  }

  /* ---------------------------------------------------------------------- */
  /* Divisibility of the result                                              */

  lemma DividesMul(a: int, b: int, c: int, d: int)
    requires Divides(a, b) && Divides(c, d)
    ensures Divides(a * c, b * d)
  {
    var q := b / a;
    var r := d / c;
    assert b == q * a;
    assert d == r * c;
    MulLess(0, a, c);
    assert b * d == (q * r) * (a * c);
    DivModUnique(q * r, 0, a * c);
  }

  lemma DividesScale(i: int, p: int, q: int)
    requires i > 0 && Divides(p, q)
    ensures Divides(i * p, i * q)
  {
    DivModUnique(1, 0, i);
    DividesMul(i, i, p, q);
  }

  lemma {:induction false} PowPositive(base: int, e: nat)
    requires base > 0
    ensures Pow(base, e) > 0
  {
    if e > 0 {
      PowPositive(base, e - 1);
      MulLess(0, base, Pow(base, e - 1));
    }
  }

  /** A lower power of a positive number divides a higher one. */
  lemma {:induction false} PowDivides(base: int, e1: nat, e2: nat)
    requires base > 0 && e1 <= e2
    ensures Divides(Pow(base, e1), Pow(base, e2))
    decreases e2
  {
    if e1 == e2 {
      PowPositive(base, e1);
      DivModUnique(1, 0, Pow(base, e1));
    } else {
      PowDivides(base, e1, e2 - 1);
      DivModUnique(base, 0, 1);
      DividesMul(1, base, Pow(base, e1), Pow(base, e2 - 1));
    }
  }

  /** Product of a cons, as a right-to-left product. */
  lemma {:induction false} ProductCons(x: int, s: seq<int>)
    ensures Product([x] + s) == x * Product(s)
  {
    if s != [] {
      assert ([x] + s)[..|[x] + s| - 1] == [x] + s[..|s| - 1];
      ProductCons(x, s[..|s| - 1]);
    }
  }

  /** Grouping does not change the product: a list multiplies to the product of
      its distinct numbers raised to their counts. */
  lemma {:induction false} ProductIsPowerProduct(s: seq<int>)
    ensures Product(s) == PowerProduct(Groups(s))
  {
    if s != [] {
      var prefix := s[..|s| - 1];
      var x := s[|s| - 1];
      assert Groups(s) == Groups(prefix)[x := Get(Groups(prefix), x) + 1];
      ProductIsPowerProduct(prefix);
      PowerProductBump(Groups(prefix), x);
    }
  }

  /** Counting one more occurrence of `x` multiplies the product by `x`. */
  lemma PowerProductBump(m: map<int, nat>, x: int)
    ensures PowerProduct(m[x := Get(m, x) + 1]) == PowerProduct(m) * x
  {
    var m' := m[x := Get(m, x) + 1];
    PowerProductPick(m', x);
    assert m' - {x} == m - {x};
    var r := PowerProduct(m - {x});
    var a := Pow(x, Get(m, x));
    assert Pow(x, m'[x]) == x * a;
    if x in m {
      PowerProductPick(m, x);
    } else {
      assert m - {x} == m;
    }
    assert PowerProduct(m) == a * r;
    MulAssoc(x, a, r);
  }

  /** A map of positive factors whose powers are all at most those of `big`
      has a product that divides `big`'s product. */
  lemma {:induction false} PowerProductDivides(small: map<int, nat>, big: map<int, nat>)
    requires forall k :: k in big ==> k > 0
    requires forall k :: k in small ==> k in big && small[k] <= big[k]
    ensures Divides(PowerProduct(small), PowerProduct(big))
    decreases big.Keys
  {
    NonEmptySet(big.Keys);
    NonEmptySet(small.Keys);
    if big.Keys == {} {
      assert small.Keys == {};
      DivModUnique(1, 0, 1);
    } else {
      var k :| k in big.Keys;
      PowerProductPick(big, k);
      PowerProductDivides(small - {k}, big - {k});
      if k in small {
        PowerProductPick(small, k);
        PowDivides(k, small[k], big[k]);
        DividesMul(Pow(k, small[k]), Pow(k, big[k]), PowerProduct(small - {k}), PowerProduct(big - {k}));
      } else {
        assert small - {k} == small;
        DivModUnique(1, 0, 1);
        DivModUnique(Pow(k, big[k]), 0, 1);
        DividesMul(1, Pow(k, big[k]), PowerProduct(small), PowerProduct(big - {k}));
      }
    }
  }

  /** The product of each input's factors divides the as-written result. */
  lemma FactorProductDividesLcmAsWritten(numbers: seq<int>, i: int)
    requires 0 <= i < |numbers|
    ensures Divides(Product(FactorsFrom(numbers[i], 2)), LcmAsWritten(numbers))
  {
    var factors := seq(|numbers|, j requires 0 <= j < |numbers| => FactorsFrom(numbers[j], 2));
    var groups := MapGroups(factors);
    forall j, k | 0 <= j < |factors| && 0 <= k < |factors[j]|
      ensures factors[j][k] > 0
    {
      assert factors[j] == FactorsFrom(numbers[j], 2);
      FactorsFromOrdered(numbers[j], 2);
    }
    FactorsArePositive(factors);
    GroupDividesMerged(groups, i);
    ProductIsPowerProduct(factors[i]);
  }

  lemma FactorsArePositive(factors: seq<seq<int>>)
    requires forall i, k :: 0 <= i < |factors| && 0 <= k < |factors[i]| ==> factors[i][k] > 0
    ensures forall k :: k in HighestPowers(MapGroups(factors)) ==> k > 0
  {
    var groups := MapGroups(factors);
    forall k | k in HighestPowers(groups)
      ensures k > 0
    {
      HighestPowersAttained(groups, k);
      var i :| 0 <= i < |groups| && k in groups[i] && groups[i][k] == HighestPowers(groups)[k];
      GroupsCount(factors[i]);
      var j :| 0 <= j < |factors[i]| && factors[i][j] == k;
    }
  }

  lemma GroupDividesMerged(groups: seq<map<int, nat>>, i: int)
    requires 0 <= i < |groups|
    requires forall k :: k in HighestPowers(groups) ==> k > 0
    ensures Divides(PowerProduct(groups[i]), PowerProduct(HighestPowers(groups)))
  {
    forall k | k in groups[i]
      ensures k in HighestPowers(groups) && groups[i][k] <= HighestPowers(groups)[k]
    {
      HighestPowersAbove(groups, i, k);
    }
    PowerProductDivides(groups[i], HighestPowers(groups));
  }

  /** The corrected result is a common multiple: every positive input divides it. */
  lemma LcmIsCommonMultiple(numbers: seq<int>, i: int)
    requires 0 <= i < |numbers| && numbers[i] >= 1
    ensures Divides(numbers[i], Lcm(numbers))
  {
    var factors := seq(|numbers|, j requires 0 <= j < |numbers| => TrialFactors(numbers[j], 2));
    forall j, k | 0 <= j < |factors| && 0 <= k < |factors[j]|
      ensures factors[j][k] > 0
    {
      TrialFactorsAtLeastTwo(numbers[j], 2);
    }
    FactorsArePositive(factors);
    GroupDividesMerged(MapGroups(factors), i);
    ProductIsPowerProduct(factors[i]);
    TrialFactorsProduct(numbers[i], 2);
  }

  /** The as-written result misses factors: the "least common multiple" of
      `[4]` is 1, which 4 does not divide. */
  lemma LcmAsWrittenOfFour()
    ensures LcmAsWritten([4]) == 1
    ensures !Divides(4, LcmAsWritten([4]))
  {
    FactorsOfFour();
    var factors := seq(1, i requires 0 <= i < 1 => FactorsFrom([4][i], 2));
    assert factors == [[]];
    assert MapGroups(factors) == [map[]];
    assert HighestPowers([map[]]) == map[];
  }
}
