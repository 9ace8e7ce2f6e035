/** hostname_color of src/adksys_mpi.c: the salted hash by which a communicator is split. */
module HostHash {
  /** Wrap-around of a 32-bit int. */
  function Wrap(x: int): int {
    (x + 0x8000_0000) % 0x1_0000_0000 - 0x8000_0000
  }

  function Xor(a: nat, b: nat): nat {
    if a == 0 && b == 0 then 0 else (if a % 2 == b % 2 then 0 else 1) + 2 * Xor(a / 2, b / 2)
  }

  function HashFrom(name: string, i: nat, hash: int, index: nat): int
    requires i <= |name|
    decreases |name| - i
  {
    if i == |name| then hash
    else HashFrom(name, i + 1, Wrap(Wrap(Wrap(hash * 32) + hash) + Xor(name[i] as int, index)), index)
  }

  /** The color a rank passes to the split: the hash, made positive. */
  function HostColor(name: string, index: nat): int {
    var hash := HashFrom(name, 0, 5381, index);
    if hash < 0 then -hash else hash
  }

  /** hostname_color, with the negation its caller applies. */
  method ColorOfHost(name: string, index: nat) returns (color: int)
    ensures color == HostColor(name, index) >= 0
    ensures color == Wrap(Unwrapped(name, index)) || color == -Wrap(Unwrapped(name, index))
  {
    HashInClosedForm(name, 0, 5381, index);
    var hash := 5381;
    var i := 0;
    while i < |name|
      invariant 0 <= i <= |name|
      invariant HashFrom(name, i, hash, index) == HashFrom(name, 0, 5381, index)
    {
      hash := Wrap(Wrap(Wrap(hash * 32) + hash) + Xor(name[i] as int, index));
      i := i + 1;
    }
    color := if hash < 0 then hash * -1 else hash;
  }

  // ---------------------------------------------------------------- what the hash is

  lemma WrapTurns(x: int) returns (k: int)
    ensures Wrap(x) == x + 0x1_0000_0000 * k && -0x8000_0000 <= Wrap(x) < 0x8000_0000
  {
    k := -((x + 0x8000_0000) / 0x1_0000_0000);
  }

  /** One character further. */
  function HashStep(hash: int, c: char, index: nat): int {
    Wrap(Wrap(Wrap(hash * 32) + hash) + Xor(c as int, index))
  }

  lemma HashStepTurns(hash: int, c: char, index: nat) returns (k: int)
    ensures HashStep(hash, c, index) == 33 * hash + Xor(c as int, index) + 0x1_0000_0000 * k
  {
    var k1 := WrapTurns(hash * 32);
    var k2 := WrapTurns(Wrap(hash * 32) + hash);
    var k3 := WrapTurns(Wrap(Wrap(hash * 32) + hash) + Xor(c as int, index));
    k := k1 + k2 + k3;
  }

  function Power33(n: nat): nat {
    if n == 0 then 1 else 33 * Power33(n - 1)
  }

  /** The salted characters from i on, as a number in base 33. */
  function Weighted(name: string, i: nat, index: nat): nat
    requires i <= |name|
    decreases |name| - i
  {
    if i == |name| then 0 else Xor(name[i] as int, index) * Power33(|name| - 1 - i) + Weighted(name, i + 1, index)
  }

  lemma WrapOfMultiple(x: int, k: int)
    ensures Wrap(x + 0x1_0000_0000 * k) == Wrap(x)
  {
  }

  /** Wrapping around in between makes no difference. */
  lemma WrapInBetween(x: int, p: nat, w: int)
    ensures Wrap(Wrap(x) * p + w) == Wrap(x * p + w)
  {
    var k := WrapTurns(x);
    assert Wrap(x) * p + w == (x * p + w) + 0x1_0000_0000 * (k * p);
    WrapOfMultiple(x * p + w, k * p);
  }

  lemma WrapOfSum(x: int, y: int)
    ensures Wrap(Wrap(x) + y) == Wrap(x + y)
  {
    var k := WrapTurns(x);
    WrapOfMultiple(x + y, k);
  }

  lemma StepIsWrapped(hash: int, c: char, index: nat)
    ensures HashStep(hash, c, index) == Wrap(33 * hash + Xor(c as int, index))
  {
    WrapOfSum(hash * 32, hash);
    WrapOfSum(hash * 32 + hash, Xor(c as int, index));
  }

  lemma Reassemble(hash: int, x: int, p: nat, p': nat, w: int)
    requires p' == 33 * p
    ensures Wrap(Wrap(33 * hash + x) * p + w) == Wrap(hash * p' + (x * p + w))
  {
    WrapInBetween(33 * hash + x, p, w);
    assert (33 * hash + x) * p == hash * (33 * p) + x * p;
  }

  /** The hash in closed form: the start value and the salted characters as a number in base 33, wrapped
      around once. */
  lemma {:induction false} HashInClosedForm(name: string, i: nat, hash: int, index: nat)
    requires i <= |name| && -0x8000_0000 <= hash < 0x8000_0000
    ensures HashFrom(name, i, hash, index) == Wrap(hash * Power33(|name| - i) + Weighted(name, i, index))
    decreases |name| - i
  {
    if i < |name| {
      StepIsWrapped(hash, name[i], index);
      HashInClosedForm(name, i + 1, HashStep(hash, name[i], index), index);
      Reassemble(hash, Xor(name[i] as int, index), Power33(|name| - 1 - i), Power33(|name| - i),
        Weighted(name, i + 1, index));
    } else {
      assert hash * Power33(0) == hash;
    }
  }

  /** The whole hash before it is wrapped around: 5381 * 33^n plus the salted characters. */
  function Unwrapped(name: string, index: nat): nat {
    5381 * Power33(|name|) + Weighted(name, 0, index)
  }

  predicate Congruent(a: int, b: int) {
    (a - b) % 0x1_0000_0000 == 0
  }

  predicate Opposite(a: int, b: int) {
    (a + b) % 0x1_0000_0000 == 0
  }

  lemma SameWrap(a: int, b: int)
    ensures Wrap(a) == Wrap(b) <==> Congruent(a, b)
  {
    var k := WrapTurns(a);
    var l := WrapTurns(b);
    if Congruent(a, b) {
      var m := (a - b) / 0x1_0000_0000;
      assert a == b + 0x1_0000_0000 * m;
      WrapOfMultiple(b, m);
    }
    if Wrap(a) == Wrap(b) {
      assert a - b == 0x1_0000_0000 * (l - k);
    }
  }

  lemma OppositeWrap(a: int, b: int)
    ensures Wrap(a) == -Wrap(b) ==> Opposite(a, b)
    ensures Opposite(a, b) ==> Wrap(a) == -Wrap(b) || Wrap(a) == Wrap(b)
  {
    var k := WrapTurns(a);
    var l := WrapTurns(b);
    if Wrap(a) == -Wrap(b) {
      assert a + b == 0x1_0000_0000 * (0 - k - l);
    }
    if Opposite(a, b) {
      var m := (a + b) / 0x1_0000_0000;
      assert Wrap(a) + Wrap(b) == 0x1_0000_0000 * (m + k + l);
    }
  }

  /** Two names have one color in a round exactly if their hashes are congruent or opposite modulo 2^32. */
  lemma SameColorExactly(x: string, y: string, index: nat)
    ensures HostColor(x, index) == HostColor(y, index)
       <==> Congruent(Unwrapped(x, index), Unwrapped(y, index)) || Opposite(Unwrapped(x, index), Unwrapped(y, index))
  {
    HashInClosedForm(x, 0, 5381, index);
    HashInClosedForm(y, 0, 5381, index);
    SameWrap(Unwrapped(x, index), Unwrapped(y, index));
    OppositeWrap(Unwrapped(x, index), Unwrapped(y, index));
  }

  /** Bit k of a number. */
  function Bit(a: nat, k: nat): nat {
    if k == 0 then a % 2 else Bit(a / 2, k - 1)
  }

  /** Xor is what its name says: a bit is set exactly if it is set in one of the two. */
  lemma {:induction false} XorIsBitwise(a: nat, b: nat, k: nat)
    ensures Bit(Xor(a, b), k) == 1 <==> Bit(a, k) != Bit(b, k)
    decreases k
  {
    if k > 0 {
      XorIsBitwise(a / 2, b / 2, k - 1);
    }
  }

  // ---------------------------------------------------------------- names that no salt separates

  /** Adding 1 to an even character turns its salted value by 1, up or down by the salt's lowest bit. */
  lemma XorOfNext(a: nat, index: nat)
    requires a % 2 == 0
    ensures Xor(a + 1, index) - Xor(a, index) == if index % 2 == 0 then 1 else -1
  {
    assert (a + 1) / 2 == a / 2;
  }

  /** Writes n in base 3 with the digits -1, 0 and 1, as a name with a c for one and b for the others. */
  function NameOf(n: nat, one: int): string {
    if n == 0 then "" else NameOf(n / 3, one) + [if n % 3 - 1 == one then 'c' else 'b']
  }

  /** The same digits read in base 33. */
  function InBase33(n: nat): int {
    if n == 0 then 0 else 33 * InBase33(n / 3) + (n % 3 - 1)
  }

  function Signed(d: int, index: nat): int {
    if index % 2 == 0 then d else -d
  }

  lemma {:induction false} HashOfLonger(name: string, c: char, i: nat, hash: int, index: nat)
    requires i <= |name|
    ensures HashFrom(name + [c], i, hash, index) == HashStep(HashFrom(name, i, hash, index), c, index)
    decreases |name| - i
  {
    assert (name + [c])[i] == if i < |name| then name[i] else c;
    if i < |name| {
      HashOfLonger(name, c, i + 1, HashStep(hash, name[i], index), index);
    }
  }

  /** The hashes of the two names of n differ by its digits in base 33, up to sign and wrap-around. */
  lemma {:induction false} HashesDiffer(n: nat, hash: int, index: nat) returns (k: int)
    ensures HashFrom(NameOf(n, 1), 0, hash, index) - HashFrom(NameOf(n, -1), 0, hash, index)
         == Signed(InBase33(n), index) + 0x1_0000_0000 * k
  {
    if n == 0 {
      k := 0;
    } else {
      var k0 := HashesDiffer(n / 3, hash, index);
      var c, b := if n % 3 == 2 then 'c' else 'b', if n % 3 == 0 then 'c' else 'b';
      HashOfLonger(NameOf(n / 3, 1), c, 0, hash, index);
      HashOfLonger(NameOf(n / 3, -1), b, 0, hash, index);
      var kc := HashStepTurns(HashFrom(NameOf(n / 3, 1), 0, hash, index), c, index);
      var kb := HashStepTurns(HashFrom(NameOf(n / 3, -1), 0, hash, index), b, index);
      XorOfNext('b' as int, index);
      assert Xor(c as int, index) - Xor(b as int, index) == Signed(n % 3 - 1, index);
      k := 33 * k0 + kc - kb;
    }
  }

  lemma {:induction false} HashInRange(name: string, i: nat, hash: int, index: nat)
    requires i <= |name| && -0x8000_0000 <= hash < 0x8000_0000
    ensures -0x8000_0000 <= HashFrom(name, i, hash, index) < 0x8000_0000
    decreases |name| - i
  {
    if i < |name| {
      HashInRange(name, i + 1, HashStep(hash, name[i], index), index);
    }
  }

  lemma NoTurns(a: int, b: int, k: int)
    requires -0x8000_0000 <= a < 0x8000_0000 && -0x8000_0000 <= b < 0x8000_0000 && a - b == 0x1_0000_0000 * k
    ensures a == b
  {
  }

  lemma SameHash(n: nat, m: int, hash: int, index: nat)
    requires InBase33(n) == 0x1_0000_0000 * m && -0x8000_0000 <= hash < 0x8000_0000
    ensures HashFrom(NameOf(n, 1), 0, hash, index) == HashFrom(NameOf(n, -1), 0, hash, index)
  {
    var k := HashesDiffer(n, hash, index);
    HashInRange(NameOf(n, 1), 0, hash, index);
    HashInRange(NameOf(n, -1), 0, hash, index);
    NoTurns(HashFrom(NameOf(n, 1), 0, hash, index), HashFrom(NameOf(n, -1), 0, hash, index),
            if index % 2 == 0 then m + k else k - m);
  }

  lemma OneDigit(n: nat, e: int, d: int) returns (n': nat, e': int)
    requires InBase33(n) == e && -1 <= d <= 1 && (n > 0 || d >= 0)
    ensures n' == 3 * n + d + 1 && e' == 33 * e + d && InBase33(n') == e'
  {
    n', e' := 3 * n + d + 1, 33 * e + d;
    assert n' / 3 == n && n' % 3 == d + 1;
  }

  lemma ThreeDigits(n: nat, e: int, d0: int, d1: int, d2: int) returns (n': nat, e': int)
    requires InBase33(n) == e && (n > 0 || d0 >= 0) && -1 <= d0 <= 1 && -1 <= d1 <= 1 && -1 <= d2 <= 1
    ensures e' == (33 * e + d0) * 1089 + 33 * d1 + d2 && InBase33(n') == e' && n' > 0 && n' % 3 == d2 + 1
  {
    n', e' := OneDigit(n, e, d0);
    n', e' := OneDigit(n', e', d1);
    n', e' := OneDigit(n', e', d2);
  }

  /** Some such digits make a multiple of 2 to the power of 32 in base 33. */
  lemma SomeMultiple() returns (n: nat, m: int)
    ensures n % 3 == 2 && InBase33(n) == 0x1_0000_0000 * m
  {
    var e;
    n, e := ThreeDigits(0, 0, 0, 0, 1);
    n, e := ThreeDigits(n, e, -1, 0, 0);
    n, e := ThreeDigits(n, e, -1, -1, 0);
    n, e := ThreeDigits(n, e, 1, 1, 1);
    n, e := ThreeDigits(n, e, 1, -1, 0);
    n, e := ThreeDigits(n, e, 1, -1, 0);
    n, e := ThreeDigits(n, e, -1, -1, 0);
    n, e := ThreeDigits(n, e, 0, 0, 1);
    m := 17477065969652956444000;
  }

  /** There are two different names that get the same color in every round. */
  lemma TwoNamesOneColor() returns (x: string, y: string)
    ensures x != y && forall index: nat :: HostColor(x, index) == HostColor(y, index)
  {
    var n, m := SomeMultiple();
    x, y := NameOf(n, 1), NameOf(n, -1);
    NamesDiffer(n);
    forall index: nat ensures HostColor(x, index) == HostColor(y, index) {
      SameHash(n, m, 5381, index);
    }
  }

  lemma NamesDiffer(n: nat)
    requires n % 3 == 2
    ensures NameOf(n, 1) != NameOf(n, -1)
  {
    var x, y := NameOf(n, 1), NameOf(n, -1);
    assert x[|x| - 1] != y[|y| - 1];
  }
}
