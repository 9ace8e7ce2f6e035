/** Jobs whose hosts the hash of src/adksys_mpi.c does tell apart: two ASCII names of one length whose plain
    hashes differ get different colors in round 0 or in round 128. */
module HostSeparation {
  import opened MpiElection
  import opened ElectionRuns
  import opened HostHash

  predicate IsAscii(name: string) {
    forall i :: 0 <= i < |name| ==> (name[i] as int) < 128
  }

  // ---------------------------------------------------------------- the salt of round 128

  /** 1 + 33 + ... + 33^(n - 1) */
  function Repunit(n: nat): nat {
    if n == 0 then 0 else Power33(n - 1) + Repunit(n - 1)
  }

  lemma {:induction false} XorNothing(a: nat)
    ensures Xor(a, 0) == a
  {
    if a != 0 {
      XorNothing(a / 2);
    }
  }

  lemma {:induction false} XorAbove(a: nat, k: nat)
    requires a < Power2(k)
    ensures Xor(a, Power2(k)) == a + Power2(k)
    decreases k
  {
    if k == 0 {
      assert Xor(0, 0) == 0;
    } else {
      assert Power2(k) / 2 == Power2(k - 1) && Power2(k) % 2 == 0;
      XorAbove(a / 2, k - 1);
    }
  }

  function Power2(k: nat): (p: nat)
    ensures p > 0
  {
    if k == 0 then 1 else 2 * Power2(k - 1)
  }

  lemma SaltOf128(a: nat)
    requires a < 128
    ensures Xor(a, 0) == a && Xor(a, 128) == a + 128
  {
    XorNothing(a);
    assert Power2(3) == 8 && Power2(7) == 16 * Power2(3);
    XorAbove(a, 7);
  }

  lemma Distributes(a: int, b: int, p: int)
    ensures (a + b) * p == a * p + b * p
  {
  }

  /** In round 128 every character of an ASCII name weighs 128 more than in round 0. */
  lemma {:induction false} WeightIn128(name: string, i: nat)
    requires IsAscii(name) && i <= |name|
    ensures Weighted(name, i, 128) == Weighted(name, i, 0) + 128 * Repunit(|name| - i)
    decreases |name| - i
  {
    if i < |name| {
      WeightIn128(name, i + 1);
      SaltOf128(name[i] as int);
      Distributes(name[i] as int, 128, Power33(|name| - 1 - i));
    }
  }

  // ---------------------------------------------------------------- powers of two in a repunit

  /** 2^k divides a. */
  ghost predicate Divides2(k: nat, a: int) {
    exists q: int :: a == q * Power2(k)
  }

  lemma OneDivides(a: int)
    ensures Divides2(0, a)
  {
    assert a == a * Power2(0);
  }

  lemma Twice(b: int, u: int)
    ensures (2 * b) * u == 2 * (b * u) == b * (2 * u)
  {
  }

  lemma EvenFactor(a: int, u: int)
    requires u % 2 == 1 && (a * u) % 2 == 0
    ensures a % 2 == 0
  {
    var v := u / 2;
    Twice(v, a);
    assert a * u == 2 * (v * a) + a;
  }

  lemma HalfOfProduct(a: int, u: int, q: int, p: int)
    requires u % 2 == 1 && a * u == q * (2 * p)
    ensures a == 2 * (a / 2) && (a / 2) * u == q * p
  {
    Twice(q, p);
    EvenFactor(a, u);
    Twice(a / 2, u);
  }

  /** An odd factor does not help. */
  lemma {:induction false} OddFactor(k: nat, a: int, u: int)
    requires u % 2 == 1 && Divides2(k, a * u)
    ensures Divides2(k, a)
  {
    if k == 0 {
      OneDivides(a);
    } else {
      var q: int :| a * u == q * Power2(k);
      var p := Power2(k - 1);
      HalfOfProduct(a, u, q, p);
      assert (a / 2) * u == q * Power2(k - 1);
      OddFactor(k - 1, a / 2, u);
      DoubledDivides(k, a);
    }
  }

  lemma DoubledDivides(k: nat, a: int)
    requires k > 0 && a % 2 == 0 && Divides2(k - 1, a / 2)
    ensures Divides2(k, a)
  {
    var r: int :| a / 2 == r * Power2(k - 1);
    Twice(r, Power2(k - 1));
    assert a == r * Power2(k);
  }

  lemma {:induction false} PowersAdd(m: nat, n: nat)
    ensures Power33(m + n) == Power33(m) * Power33(n)
    decreases n
  {
    if n > 0 {
      PowersAdd(m, n - 1);
      assert Power33(m) * (33 * Power33(n - 1)) == 33 * (Power33(m) * Power33(n - 1));
    }
  }

  lemma {:induction false} PowerIsOneMore(n: nat)
    ensures Power33(n) % 32 == 1
  {
    if n > 0 {
      PowerIsOneMore(n - 1);
    }
  }

  lemma {:induction false} RepunitsAdd(m: nat, n: nat)
    ensures Repunit(m + n) == Repunit(m) + Power33(m) * Repunit(n)
    decreases n
  {
    if n > 0 {
      RepunitsAdd(m, n - 1);
      PowersAdd(m, n - 1);
      var p := Power33(m);
      assert p * (Power33(n - 1) + Repunit(n - 1)) == p * Power33(n - 1) + p * Repunit(n - 1);
    }
  }

  lemma {:induction false} RepunitParity(n: nat)
    ensures Repunit(n) % 2 == n % 2
  {
    if n > 0 {
      RepunitParity(n - 1);
      PowerIsOneMore(n - 1);
    }
  }

  /** A repunit has no more factors of two than its length. */
  lemma {:induction false} RepunitDivides(k: nat, n: nat)
    requires Divides2(k, Repunit(n))
    ensures Divides2(k, n)
    decreases k
  {
    if k == 0 {
      OneDivides(n);
    } else {
      var q: int :| Repunit(n) == q * Power2(k);
      var p, m := Power2(k - 1), n / 2;
      Twice(q, p);
      RepunitParity(n);
      var u := RepunitOfTwice(m);
      Twice(Repunit(m), u);
      assert Repunit(m) * u == q * Power2(k - 1);
      OddFactor(k - 1, Repunit(m), u);
      RepunitDivides(k - 1, m);
      DoubledDivides(k, n);
    }
  }

  lemma RepunitOfTwice(m: nat) returns (u: nat)
    ensures u % 2 == 1 && Repunit(2 * m) == Repunit(m) * (2 * u)
  {
    RepunitsAdd(m, m);
    PowerIsOneMore(m);
    u := (1 + Power33(m)) / 2;
    OddHalf(Power33(m));
    OneMoreTime(Repunit(m), Power33(m), u);
  }

  lemma OddHalf(p: int)
    requires p % 32 == 1
    ensures ((1 + p) / 2) % 2 == 1 && 2 * ((1 + p) / 2) == 1 + p
  {
  }

  lemma OneMoreTime(a: int, b: int, u: int)
    requires 2 * u == 1 + b
    ensures a * (2 * u) == a + b * a
  {
    assert a * (1 + b) == a + a * b;
  }

  lemma PowerOf24()
    ensures Power2(24) == 0x100_0000
  {
    assert Power2(6) == 64;
    assert Power2(12) == 64 * Power2(6);
    assert Power2(18) == 64 * Power2(12);
    assert Power2(24) == 64 * Power2(18);
  }

  lemma RepunitIsOdd(n: nat)
    requires 0 < n < 0x100_0000
    ensures (256 * Repunit(n)) % 0x1_0000_0000 != 0
  {
    if (256 * Repunit(n)) % 0x1_0000_0000 == 0 {
      PowerOf24();
      var q := (256 * Repunit(n)) / 0x1_0000_0000;
      assert Repunit(n) == q * Power2(24);
      RepunitDivides(24, n);
      TooSmallToDivide(n);
    }
  }

  lemma TooSmallToDivide(n: nat)
    requires 0 < n < 0x100_0000
    ensures !Divides2(24, n)
  {
    PowerOf24();
  }

  // ---------------------------------------------------------------- two names

  /** Names of one length whose plain hashes, without salt, differ. */
  predicate ToldApart(x: string, y: string) {
    && IsAscii(x) && IsAscii(y) && 0 < |x| == |y| < 0x100_0000
    && !Congruent(Weighted(x, 0, 0), Weighted(y, 0, 0))
  }

  /** They have different colors in round 0 or in round 128: the difference of the hashes is the same in both
      rounds, and their sum is not. */
  lemma DifferentColors(x: string, y: string)
    requires ToldApart(x, y)
    ensures HostColor(x, 0) != HostColor(y, 0) || HostColor(x, 128) != HostColor(y, 128)
  {
    UnwrappedIn128(x);
    UnwrappedIn128(y);
    SameColorExactly(x, y, 0);
    SameColorExactly(x, y, 128);
    RepunitIsOdd(|x|);
    TwoRounds(Unwrapped(x, 0), Unwrapped(y, 0), Repunit(|x|));
  }

  lemma TwoRounds(a: int, b: int, s: int)
    requires !Congruent(a, b) && (256 * s) % 0x1_0000_0000 != 0
    ensures !Congruent(a + 128 * s, b + 128 * s)
    ensures !Opposite(a, b) || !Opposite(a + 128 * s, b + 128 * s)
  {
    if Opposite(a, b) && Opposite(a + 128 * s, b + 128 * s) {
      SumsApart(a + b, 256 * s);
    }
  }

  lemma UnwrappedIn128(x: string)
    requires IsAscii(x)
    ensures Unwrapped(x, 128) == Unwrapped(x, 0) + 128 * Repunit(|x|)
  {
    WeightIn128(x, 0);
  }

  lemma SumsApart(x: int, y: int)
    requires x % 0x1_0000_0000 == 0 && (x + y) % 0x1_0000_0000 == 0
    ensures y % 0x1_0000_0000 == 0
  {
  }

  // ---------------------------------------------------------------- whole jobs

  ghost predicate AllToldApart(names: seq<string>) {
    forall q: nat, r: nat :: q < |names| && r < |names| && names[q] != names[r] ==> ToldApart(names[q], names[r])
  }

  /** With the hash in use such a job has separated all its hosts by round 128, and its election ends. */
  lemma ToldApartEnds(names: seq<string>, run: seq<State>, actions: seq<Action>)
    requires AllToldApart(names) && IsRun(World(names, HostColor), run, actions)
    ensures Separated(World(names, HostColor), 128)
    ensures |actions| <= |names| * 646
  {
    var w := World(names, HostColor);
    forall q: nat, r: nat | q < |w.names| && r < |w.names| && w.names[q] != w.names[r]
      ensures exists j: nat :: j <= 128 && Differs(w, q, r, j)
    {
      DifferentColors(names[q], names[r]);
      assert Differs(w, q, r, 0) || Differs(w, q, r, 128);
    }
    ElectionTerminates(w, run, actions, 128);
  }

  /** The names are one prefix followed by d digits each. */
  predicate Numbered(names: seq<string>, prefix: string, d: nat) {
    forall r :: 0 <= r < |names| ==> IsNumbered(names[r], prefix, d)
  }

  predicate IsNumbered(name: string, prefix: string, d: nat) {
    && IsAscii(name) && |name| == |prefix| + d && prefix <= name
    && forall i :: |prefix| <= i < |name| ==> '0' <= name[i] <= '9'
  }

  lemma {:induction false} NinesAreFewer(n: nat)
    ensures 9 * Repunit(n) < Power33(n)
  {
    if n > 0 {
      NinesAreFewer(n - 1);
    }
  }

  /** The digits from i on weigh differently if they differ. */
  lemma {:induction false} DigitsDiffer(x: string, y: string, i: nat)
    requires i <= |x| == |y| && IsAscii(x) && IsAscii(y)
    requires forall k :: i <= k < |x| ==> '0' <= x[k] <= '9' && '0' <= y[k] <= '9'
    ensures var diff := Weighted(x, i, 0) - Weighted(y, i, 0);
            && -9 * Repunit(|x| - i) <= diff <= 9 * Repunit(|x| - i)
            && (diff == 0 ==> x[i..] == y[i..])
    decreases |x| - i
  {
    if i < |x| {
      DigitsDiffer(x, y, i + 1);
      SaltOf128(x[i] as int);
      SaltOf128(y[i] as int);
      var p, e := Power33(|x| - 1 - i), x[i] as int - y[i] as int;
      NinesAreFewer(|x| - 1 - i);
      WeightsDiffer(x[i] as int, y[i] as int, p);
      DigitWeighs(p, e, 9 * Repunit(|x| - 1 - i), Weighted(x, i + 1, 0) - Weighted(y, i + 1, 0));
      OneMoreDigit(x, y, i);
    }
  }

  lemma WeightsDiffer(a: int, b: int, p: int)
    ensures a * p - b * p == (a - b) * p
  {
  }

  lemma OneMoreDigit(x: string, y: string, i: nat)
    requires i < |x| == |y|
    ensures x[i] == y[i] && x[i + 1..] == y[i + 1..] ==> x[i..] == y[i..]
  {
    assert x[i..] == [x[i]] + x[i + 1..] && y[i..] == [y[i]] + y[i + 1..];
  }

  lemma DigitWeighs(p: nat, e: int, bound: nat, rest: int)
    requires -9 <= e <= 9 && 0 - bound <= rest <= bound < p
    ensures -9 * p - bound <= e * p + rest <= 9 * p + bound
    ensures e * p + rest == 0 ==> e == 0 && rest == 0
  {
    assert -9 * p <= e * p <= 9 * p;
    if e >= 1 {
      assert e * p >= p;
    } else if e <= -1 {
      assert e * p <= 0 - p;
    }
  }

  lemma {:induction false} PrefixWeighs(x: string, y: string, i: nat, j: nat)
    requires i <= j <= |x| == |y| && forall k :: i <= k < j ==> x[k] == y[k]
    ensures Weighted(x, i, 0) - Weighted(y, i, 0) == Weighted(x, j, 0) - Weighted(y, j, 0)
    decreases j - i
  {
    if i < j {
      PrefixWeighs(x, y, i + 1, j);
    }
  }

  lemma SixDigits(d: nat)
    requires d <= 6
    ensures 9 * Repunit(d) < 0x1_0000_0000
  {
    NinesAreFewer(d);
    assert Power33(3) == 35937 && Power33(6) == 35937 * Power33(3);
    PowersGrow(d, 6);
  }

  lemma {:induction false} PowersGrow(m: nat, n: nat)
    requires m <= n
    ensures Power33(m) <= Power33(n)
    decreases n
  {
    if m < n {
      PowersGrow(m, n - 1);
    }
  }

  lemma NumberedAreToldApart(x: string, y: string, prefix: string, d: nat)
    requires IsNumbered(x, prefix, d) && IsNumbered(y, prefix, d) && x != y && d <= 6 && |x| < 0x100_0000
    ensures ToldApart(x, y)
  {
    var n := |prefix|;
    forall k | 0 <= k < n ensures x[k] == y[k] {
      assert x[k] == prefix[k] == y[k];
    }
    PrefixWeighs(x, y, 0, n);
    DigitsDiffer(x, y, n);
    SixDigits(d);
    assert x == x[..n] + x[n..] && y == y[..n] + y[n..];
    NearbyApart(Weighted(x, 0, 0), Weighted(y, 0, 0));
  }

  /** An election over hosts with numbered names of one length, like node001 to node128, ends. */
  lemma NumberedHostsEnd(names: seq<string>, prefix: string, d: nat, run: seq<State>, actions: seq<Action>)
    requires Numbered(names, prefix, d) && d <= 6 && |prefix| + d < 0x100_0000
    requires IsRun(World(names, HostColor), run, actions)
    ensures Separated(World(names, HostColor), 128) && |actions| <= |names| * 646
  {
    forall q: nat, r: nat | q < |names| && r < |names| && names[q] != names[r] ensures ToldApart(names[q], names[r]) {
      NumberedAreToldApart(names[q], names[r], prefix, d);
    }
    ToldApartEnds(names, run, actions);
  }

  /** Names that differ only in their last character are told apart. */
  lemma LastCharacterTellsApart(x: string, y: string)
    requires IsAscii(x) && IsAscii(y) && 0 < |x| == |y| < 0x100_0000
    requires x[..|x| - 1] == y[..|y| - 1] && x != y
    ensures ToldApart(x, y)
  {
    var n := |x| - 1;
    forall k | 0 <= k < n ensures x[k] == y[k] {
      assert x[k] == x[..n][k] == y[..n][k];
    }
    PrefixWeighs(x, y, 0, n);
    LastWeighs(x);
    LastWeighs(y);
    assert x == x[..n] + [x[n]] && y == y[..n] + [y[n]];
    NearbyApart(Weighted(x, 0, 0), Weighted(y, 0, 0));
  }

  lemma LastWeighs(x: string)
    requires x != ""
    ensures Weighted(x, |x| - 1, 0) == x[|x| - 1] as int
  {
    XorNothing(x[|x| - 1] as int);
    assert Weighted(x, |x|, 0) == 0 && Power33(0) == 1;
  }

  lemma NearbyApart(a: int, b: int)
    requires a != b && -0x1_0000_0000 < a - b < 0x1_0000_0000
    ensures !Congruent(a, b)
  {
  }
}
