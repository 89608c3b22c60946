/** Small helpers shared by all the puzzle models: an optional value (for
    JavaScript's `undefined` and `NaN` results), sums of integer sequences
    taken left to right as `Array.prototype.reduce` does, and counting. */
module Common {

  datatype Option<T> = None | Some(value: T)

  /** Sum of the elements, folded from the left like `reduce((t, v) => t + v, 0)`. */
  function Sum(s: seq<int>): int
  {
    if s == [] then 0 else Sum(s[..|s| - 1]) + s[|s| - 1]
  }

  /** Product of the elements, folded from the left like `reduce((t, v) => t * v, 1)`. */
  function Product(s: seq<int>): int
  {
    if s == [] then 1 else Product(s[..|s| - 1]) * s[|s| - 1]
  }

  lemma SumAppend(s: seq<int>, t: seq<int>)
    ensures Sum(s + t) == Sum(s) + Sum(t)
  {
    if t != [] {
      assert (s + t)[..|s + t| - 1] == s + t[..|t| - 1];
      SumAppend(s, t[..|t| - 1]);
    } else {
      assert s + t == s;
    }
  }

  lemma SumNonNegative(s: seq<int>)
    requires forall i :: 0 <= i < |s| ==> s[i] >= 0
    ensures Sum(s) >= 0
  {
    if s != [] {
      SumNonNegative(s[..|s| - 1]);
    }
  }

  /** The number of elements of `s` equal to `x`. */
  function Count<T(==)>(s: seq<T>, x: T): nat
  {
    if s == [] then 0 else Count(s[..|s| - 1], x) + (if s[|s| - 1] == x then 1 else 0)
  }

  lemma CountAppend<T>(s: seq<T>, t: seq<T>, x: T)
    ensures Count(s + t, x) == Count(s, x) + Count(t, x)
  {
    if t != [] {
      assert (s + t)[..|s + t| - 1] == s + t[..|t| - 1];
      CountAppend(s, t[..|t| - 1], x);
    } else {
      assert s + t == s;
    }
  }

  /** The elements in the opposite order, as `Array.prototype.reverse`. */
  function Reversed<T>(s: seq<T>): (r: seq<T>)
    ensures |r| == |s|
  {
    seq(|s|, i requires 0 <= i < |s| => s[|s| - 1 - i])
  }

  /** Concatenation of a sequence of sequences, left to right. */
  function Flatten<T>(rows: seq<seq<T>>): seq<T>
  {
    if rows == [] then [] else Flatten(rows[..|rows| - 1]) + rows[|rows| - 1]
  }

  function Min(a: int, b: int): int { if a < b then a else b }
  function Max(a: int, b: int): int { if a < b then b else a }
  function Abs(a: int): int { if a < 0 then -a else a }

  /** JavaScript's `%`: the remainder takes the sign of the dividend. */
  function JsRem(a: int, b: int): int
    requires b > 0
  {
    if a >= 0 then a % b else -((-a) % b)
  }

  predicate IsDigit(c: char) { '0' <= c <= '9' }

  function DigitValue(c: char): nat
    requires IsDigit(c)
  {
    c as nat - '0' as nat
  }

  /** `Number(s)` for a non-empty string of decimal digits. */
  function DecimalValue(s: seq<char>): nat
    requires forall i :: 0 <= i < |s| ==> IsDigit(s[i])
  {
    if s == [] then 0 else 10 * DecimalValue(s[..|s| - 1]) + DigitValue(s[|s| - 1])
  }

  /** Multiplication by a positive number is monotone; stated as implications
      so that callers can use them without a case split. */
  lemma MulLe(a: int, b: int, c: int)
    requires c >= 0
    ensures a <= b ==> a * c <= b * c
  {
    assert b * c - a * c == (b - a) * c;
  }

  lemma MulLess(a: int, b: int, c: int)
    requires c > 0
    ensures a < b ==> a * c + c <= b * c
  {
    assert b * c - a * c == (b - a) * c;
    assert (b - a) * c - c == (b - a - 1) * c;
  }

  /** Quotient and remainder of `q * c + r` are `q` and `r` when `0 <= r < c`. */
  lemma DivModUnique(q: int, r: int, c: int)
    requires c > 0 && 0 <= r < c
    ensures (q * c + r) / c == q && (q * c + r) % c == r
  {
    var n := q * c + r;
    MulLess(n / c, q, c);
    MulLess(q, n / c, c);
  }

  /** Below `k * c`, the quotient by `c` is below `k`. */
  lemma DivBelow(n: int, k: int, c: int)
    requires c > 0
    ensures n < k * c ==> n / c < k
  {
    MulLe(k, n / c, c);
  }

  /** Dividing a non-negative number by a positive one does not increase it. */
  lemma DivShrinks(n: int, c: int)
    requires n >= 0 && c >= 1
    ensures 0 <= n / c <= n
  {
    MulLe(1, c, n + 1);
    DivBelow(n, n + 1, c);
  }

  /** An element that does not occur has count 0. */
  lemma {:induction false} CountAbsent<T>(s: seq<T>, x: T)
    ensures x !in s ==> Count(s, x) == 0
  {
    if s != [] && x !in s {
      assert x !in s[..|s| - 1];
      CountAbsent(s[..|s| - 1], x);
    }
  }

  /** An exact quotient multiplies back to the dividend. */
  lemma DivExact(n: int, c: int)
    requires c > 0 && n % c == 0
    ensures c * (n / c) == n
  {
  }

  /** A set that is not empty has an element to pick. */
  lemma NonEmptySet(s: set<int>)
    ensures s == {} || exists x :: x in s
  {
    if forall x :: x !in s {
      assert s == {};
    }
  }

  /** A set of indexes below `n` has at most `n` elements. */
  lemma {:induction false} IndexSetSize(s: set<int>, n: nat)
    requires forall j :: j in s ==> 0 <= j < n
    ensures |s| <= n
    decreases n
  {
    if n == 0 {
      NonEmptySet(s);
    } else {
      var rest := s - {n - 1};
      IndexSetSize(rest, n - 1);
      assert s <= rest + {n - 1};
    }
  }

  /** A subset is no larger than the set that holds it. */
  lemma SubsetSize<T>(a: set<T>, b: set<T>)
    requires a <= b
    ensures |a| <= |b|
  {
    assert b == a + (b - a);
    assert a * (b - a) == {};
  }

  /** Regrouping a product of three factors. */
  lemma MulAssoc(a: int, b: int, c: int)
    ensures a * (b * c) == (a * b) * c && (a * b) * c == (b * c) * a
  {
  }

  /** A number or JavaScript's `Infinity`, the seed of a minimum search. */
  datatype Extended = Finite(value: int) | Infinity

  /** `reduce((lowest, v) => v < lowest ? v : lowest, Infinity)`: the least
      element, or `Infinity` for an empty sequence. */
  function Lowest(s: seq<int>): (r: Extended)
    ensures r == Infinity <==> s == []
    ensures r.Finite? ==> (forall i :: 0 <= i < |s| ==> r.value <= s[i]) &&
                          exists i :: 0 <= i < |s| && s[i] == r.value
  {
    if s == [] then Infinity
    else
      var rest := Lowest(s[..|s| - 1]);
      var v := s[|s| - 1];
      if rest.Finite? && !(v < rest.value) then
        assert forall i :: 0 <= i < |s| - 1 ==> s[i] == s[..|s| - 1][i];
        rest
      else
        assert forall i :: 0 <= i < |s| - 1 ==> s[i] == s[..|s| - 1][i];
        Finite(v)
  }

  /** The count of each number in `numbers`, as the grouping loops build it:
      `groups[x] = (groups[x] || 0) + 1` for each `x` in turn. */
  function Groups(numbers: seq<int>): map<int, nat>
  {
    if numbers == [] then map[]
    else
      var prefix := Groups(numbers[..|numbers| - 1]);
      var x := numbers[|numbers| - 1];
      prefix[x := (if x in prefix then prefix[x] else 0) + 1]
  }

  /** The grouping has an entry for exactly the numbers in the list, and each
      entry is the number's count, so at least 1. */
  lemma {:induction false} GroupsCount(numbers: seq<int>)
    ensures forall x :: x in Groups(numbers) <==> x in numbers
    ensures forall x :: x in Groups(numbers) ==> Groups(numbers)[x] == Count(numbers, x) >= 1
  {
    if numbers != [] {
      var before := numbers[..|numbers| - 1];
      var x := numbers[|numbers| - 1];
      GroupsCount(before);
      assert forall y :: y in numbers <==> y in before || y == x;
      CountAbsent(before, x);
    }
  }


  /** The sum of the counts of the listed keys. */
  function CountsOver(m: map<int, nat>, keys: seq<int>): int
  {
    if keys == [] then 0
    else CountsOver(m, keys[..|keys| - 1]) + (if keys[|keys| - 1] in m then m[keys[|keys| - 1]] else 0)
  }

  /** The counts add up to the length of the list: for any listing of the
      numbers that names each one once, the sum of their counts is `|numbers|`. */
  lemma {:induction false} GroupsCountAll(numbers: seq<int>, keys: seq<int>)
    requires forall i, j :: 0 <= i < j < |keys| ==> keys[i] != keys[j]
    requires forall x :: x in numbers ==> x in keys
    ensures CountsOver(Groups(numbers), keys) == |numbers|
  {
    if numbers == [] {
      CountsOverEmpty(Groups(numbers), keys);
    } else {
      var prefix := numbers[..|numbers| - 1];
      var x := numbers[|numbers| - 1];
      GroupsCountAll(prefix, keys);
      CountsOverBump(Groups(prefix), keys, x);
    }
  }

  lemma {:induction false} CountsOverEmpty(m: map<int, nat>, keys: seq<int>)
    requires forall i :: 0 <= i < |keys| ==> keys[i] !in m
    ensures CountsOver(m, keys) == 0
  {
    if keys != [] {
      CountsOverEmpty(m, keys[..|keys| - 1]);
    }
  }

  /** Adding one to the count of a key that is listed once adds one to the sum. */
  lemma {:induction false} CountsOverBump(m: map<int, nat>, keys: seq<int>, x: int)
    requires forall i, j :: 0 <= i < j < |keys| ==> keys[i] != keys[j]
    ensures CountsOver(m[x := (if x in m then m[x] else 0) + 1], keys)
         == CountsOver(m, keys) + (if x in keys then 1 else 0)
  {
    if keys != [] {
      var last := keys[|keys| - 1];
      CountsOverBump(m, keys[..|keys| - 1], x);
      assert x in keys <==> x in keys[..|keys| - 1] || x == last;
      if x == last {
        assert x !in keys[..|keys| - 1];
      }
    }
  }

  /** A finite non-empty set of integers has a least element. */
  lemma {:induction false} LeastExists(s: set<int>)
    requires s != {}
    ensures exists k :: k in s && forall j :: j in s ==> k <= j
    decreases |s|
  {
    NonEmptySet(s);
    var x :| x in s;
    if s - {x} != {} {
      LeastExists(s - {x});
      var k :| k in s - {x} && forall j :: j in s - {x} ==> k <= j;
      var least := Min(x, k);
      forall j | j in s
        ensures least <= j
      {
        if j != x {
          assert j in s - {x};
        }
      }
      assert least in s;
    } else {
      assert forall j :: j in s ==> j == x;
    }
  }

  function LeastKey(s: set<int>): (k: int)
    requires s != {}
    ensures k in s && forall j :: j in s ==> k <= j
  {
    LeastExists(s);
    var k :| k in s && forall j :: j in s ==> k <= j;
    k
  }

  /** The keys of a set in ascending order, the order in which JavaScript
      lists the integer keys of an object. */
  function SortedKeys(s: set<int>): (ks: seq<int>)
    ensures |ks| == |s|
    decreases |s|
  {
    if s == {} then []
    else
      var k := LeastKey(s);
      [k] + SortedKeys(s - {k})
  }

  /** The sorted keys list each key of the set once, in ascending order. */
  lemma {:induction false} SortedKeysFacts(s: set<int>)
    ensures forall i :: 0 <= i < |SortedKeys(s)| ==> SortedKeys(s)[i] in s
    ensures forall x :: x in s ==> x in SortedKeys(s)
    ensures forall i, j :: 0 <= i < j < |SortedKeys(s)| ==> SortedKeys(s)[i] < SortedKeys(s)[j]
    decreases |s|
  {
    if s != {} {
      var k := LeastKey(s);
      SortedKeysFacts(s - {k});
      SortedKeysStep(s, k, SortedKeys(s - {k}));
    }
  }

  /** Putting the least key in front of the sorted others sorts them all. */
  lemma SortedKeysStep(s: set<int>, k: int, rest: seq<int>)
    requires k in s && forall j :: j in s ==> k <= j
    requires |rest| == |s - {k}|
    requires forall i :: 0 <= i < |rest| ==> rest[i] in s - {k}
    requires forall x :: x in s - {k} ==> x in rest
    requires forall i, j :: 0 <= i < j < |rest| ==> rest[i] < rest[j]
    ensures |[k] + rest| == |s|
    ensures forall i :: 0 <= i < |[k] + rest| ==> ([k] + rest)[i] in s
    ensures forall x :: x in s ==> x in [k] + rest
    ensures forall i, j :: 0 <= i < j < |[k] + rest| ==> ([k] + rest)[i] < ([k] + rest)[j]
  {
    var ks := [k] + rest;
    forall i | 1 <= i < |ks|
      ensures ks[i] in s && k < ks[i]
    {
      assert ks[i] == rest[i - 1];
    }
    forall x | x in s
      ensures x in ks
    {
      if x != k {
        assert x in s - {k};
      }
    }
  }

  /** The values of the keys `ks`, in the order of `ks`. */
  function ValuesAt(m: map<int, nat>, ks: seq<int>): (vs: seq<int>)
    requires forall i :: 0 <= i < |ks| ==> ks[i] in m
    ensures |vs| == |ks|
  {
    if ks == [] then [] else ValuesAt(m, ks[..|ks| - 1]) + [m[ks[|ks| - 1]]]
  }

  lemma {:induction false} ValuesAtIndex(m: map<int, nat>, ks: seq<int>)
    requires forall i :: 0 <= i < |ks| ==> ks[i] in m
    ensures forall i :: 0 <= i < |ks| ==> ValuesAt(m, ks)[i] == m[ks[i]]
  {
    if ks != [] {
      ValuesAtIndex(m, ks[..|ks| - 1]);
    }
  }

  /** `Object.values` of an object with integer keys: the values in ascending
      order of their keys. */
  function ObjectValues(m: map<int, nat>): (vs: seq<int>)
    ensures |vs| == |m.Keys|
  {
    SortedKeysFacts(m.Keys);
    ValuesAt(m, SortedKeys(m.Keys))
  }

  /** The values listed are those of the keys in ascending order, so every
      key's value is among them. */
  lemma ObjectValuesListed(m: map<int, nat>)
    ensures forall i :: 0 <= i < |ObjectValues(m)| ==>
      SortedKeys(m.Keys)[i] in m && ObjectValues(m)[i] == m[SortedKeys(m.Keys)[i]]
    ensures forall k :: k in m ==> m[k] in ObjectValues(m)
  {
    var ks := SortedKeys(m.Keys);
    SortedKeysFacts(m.Keys);
    ValuesAtIndex(m, ks);
    var vs := ObjectValues(m);
    forall k | k in m
      ensures m[k] in vs
    {
      var i :| 0 <= i < |ks| && ks[i] == k;
      assert vs[i] == m[k];
    }
  }

  /** Summing the counts of keys that are all present is summing their values. */
  lemma {:induction false} CountsOverValues(m: map<int, nat>, keys: seq<int>)
    requires forall i :: 0 <= i < |keys| ==> keys[i] in m
    ensures CountsOver(m, keys) == Sum(ValuesAt(m, keys))
  {
    if keys != [] {
      CountsOverValues(m, keys[..|keys| - 1]);
      assert ValuesAt(m, keys)[..|keys| - 1] == ValuesAt(m, keys[..|keys| - 1]);
    }
  }

  /** The values of a grouping are the counts: each at least 1, and together
      they add up to the length of the grouped list. */
  lemma GroupsValues(numbers: seq<int>)
    ensures Sum(ObjectValues(Groups(numbers))) == |numbers|
    ensures forall i :: 0 <= i < |ObjectValues(Groups(numbers))| ==> ObjectValues(Groups(numbers))[i] >= 1
  {
    GroupsValuesSum(numbers);
    GroupsValuesPositive(numbers);
  }

  lemma GroupsValuesSum(numbers: seq<int>)
    ensures Sum(ObjectValues(Groups(numbers))) == |numbers|
  {
    var m := Groups(numbers);
    var ks := SortedKeys(m.Keys);
    SortedKeysFacts(m.Keys);
    GroupsCount(numbers);
    assert forall x :: x in numbers ==> x in ks;
    GroupsCountAll(numbers, ks);
    CountsOverValues(m, ks);
  }

  lemma GroupsValuesPositive(numbers: seq<int>)
    ensures forall i :: 0 <= i < |ObjectValues(Groups(numbers))| ==> ObjectValues(Groups(numbers))[i] >= 1
  {
    var m := Groups(numbers);
    ObjectValuesListed(m);
    GroupsCount(numbers);
  }

  /** Every value listed is the value of some key. */
  lemma ObjectValuesAre(m: map<int, nat>)
    ensures forall v :: v in ObjectValues(m) ==> exists k :: k in m && m[k] == v
  {
    var ks := SortedKeys(m.Keys);
    SortedKeysFacts(m.Keys);
    var vs := ObjectValues(m);
    ObjectValuesListed(m);
    forall v | v in vs
      ensures exists k :: k in m && m[k] == v
    {
      var i :| 0 <= i < |vs| && vs[i] == v;
      assert ks[i] in m && m[ks[i]] == v;
    }
  }

  /** The keys whose value is `v`. */
  function KeysWith(m: map<int, nat>, v: int): set<int>
  {
    set k | k in m && m[k] == v
  }

  /** Counting a value among `Object.values` counts the keys holding it. */
  lemma CountValues(m: map<int, nat>, v: int)
    ensures Count(ObjectValues(m), v) == |KeysWith(m, v)|
  {
    var ks := SortedKeys(m.Keys);
    SortedKeysFacts(m.Keys);
    CountValuesAt(m, ks, v);
    assert (set k | k in ks && m[k] == v) == KeysWith(m, v);
  }

  lemma {:induction false} CountValuesAt(m: map<int, nat>, ks: seq<int>, v: int)
    requires forall i :: 0 <= i < |ks| ==> ks[i] in m
    requires forall i, j :: 0 <= i < j < |ks| ==> ks[i] != ks[j]
    ensures Count(ValuesAt(m, ks), v) == |set k | k in ks && m[k] == v|
  {
    if ks != [] {
      var p := ks[..|ks| - 1];
      var last := ks[|ks| - 1];
      CountValuesAt(m, p, v);
      assert ValuesAt(m, ks)[..|ks| - 1] == ValuesAt(m, p);
      assert ks == p + [last];
      KeysWithStep(m, p, last, v);
    }
  }

  /** Adding one more distinct key adds one to the keys holding `v` exactly
      when its value is `v`. */
  lemma KeysWithStep(m: map<int, nat>, p: seq<int>, last: int, v: int)
    requires forall i :: 0 <= i < |p| ==> p[i] in m
    requires last in m
    requires forall i, j :: 0 <= i < j < |p + [last]| ==> (p + [last])[i] != (p + [last])[j]
    ensures |set k | k in p + [last] && m[k] == v| ==
      |set k | k in p && m[k] == v| + (if m[last] == v then 1 else 0)
  {
    assert last !in p by {
      assert forall i :: 0 <= i < |p| ==> (p + [last])[i] == p[i] && (p + [last])[i] != (p + [last])[|p|];
    }
    assert forall k :: k in p + [last] <==> k in p || k == last;
    if m[last] == v {
      assert (set k | k in p + [last] && m[k] == v) == (set k | k in p && m[k] == v) + {last};
    } else {
      assert (set k | k in p + [last] && m[k] == v) == (set k | k in p && m[k] == v);
    }
  }

  /** All values are at most `t` exactly when every key's value is. */
  lemma ObjectValuesAtMost(m: map<int, nat>, t: int)
    ensures (forall i :: 0 <= i < |ObjectValues(m)| ==> ObjectValues(m)[i] <= t) <==>
            (forall k :: k in m ==> m[k] <= t)
  {
    ObjectValuesAre(m);
    ObjectValuesListed(m);
    var vs := ObjectValues(m);
    if forall i :: 0 <= i < |vs| ==> vs[i] <= t {
      forall k | k in m
        ensures m[k] <= t
      {
        assert m[k] in vs;
      }
    }
  }

  /** A `reduce` summing numbers that may be `NaN` (`None`), which propagates
      through `+`. */
  function SumOfValues(values: seq<Option<int>>): (r: Option<int>)
  {
    if values == [] then Some(0)
    else
      var total := SumOfValues(values[..|values| - 1]);
      var last := values[|values| - 1];
      if total.Some? && last.Some? then Some(total.value + last.value) else None
  }

  /** When every value is a number the total is their sum; otherwise it is
      `NaN`. */
  lemma {:induction false} SumOfValuesIs(values: seq<Option<int>>)
    ensures SumOfValues(values).Some? <==> forall i :: 0 <= i < |values| ==> values[i].Some?
    ensures SumOfValues(values).Some? ==>
      SumOfValues(values).value == Sum(seq(|values|, i requires 0 <= i < |values| => values[i].value))
  {
    if values != [] {
      var init := values[..|values| - 1];
      SumOfValuesIs(init);
      if SumOfValues(values).Some? {
        var all := seq(|values|, i requires 0 <= i < |values| => values[i].value);
        assert all[..|values| - 1] == seq(|init|, i requires 0 <= i < |init| => init[i].value);
      }
    }
  }
}
