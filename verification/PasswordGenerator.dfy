/** The password generator: character classes dealt in turn, then the characters put in any order. */
module PasswordGenerator {
  import opened Counting

  datatype Options = Options(length: int, upper: bool, lower: bool, digits: bool, symbols: bool)

  /** What Math.random returns. */
  type Chance = r: real | 0.0 <= r < 1.0 witness 0.0

  const UPPER := "ABCDEFGHJKLMNPQRSTUVWXYZ"
  const LOWER := "abcdefghijkmnopqrstuvwxyz"
  const DIGITS := "23456789"
  const SYMBOLS := "!#$%&*+-=?@^_"
  const FALLBACK := "abcdefghijkmnopqrstuvwxyz23456789"

  function Enabled(option: bool, pool: string): seq<string> {
    if option then [pool] else []
  }

  /** The enabled classes, in their fixed order. */
  function Pools(o: Options): seq<string> {
    Enabled(o.upper, UPPER) + Enabled(o.lower, LOWER) + Enabled(o.digits, DIGITS) + Enabled(o.symbols, SYMBOLS)
  }

  /** pools[index % pools.length] || joined; without any class the index is not a number. */
  function PoolFor(pools: seq<string>, index: nat): string {
    if pools == [] then FALLBACK else pools[index % |pools|]
  }

  function Pick(pool: string, chance: Chance): (c: char)
    requires pool != ""
    ensures c in pool
  {
    var n := |pool| as real;
    assert 0.0 <= chance * n < n;
    pool[(chance * n).Floor]
  }

  /** Character k of a pool of n is picked for the chances from k/n up to (k + 1)/n: every character
      has an equal share of them. */
  lemma {:induction false} PickedEvenly(pool: string, k: nat, chance: Chance)
    requires k < |pool| && k as real <= chance * |pool| as real < k as real + 1.0
    ensures Pick(pool, chance) == pool[k]
  {
  }

  /** The first n characters before they are reordered. */
  function Dealt(o: Options, random: nat -> Chance, n: nat): (chars: string)
    ensures |chars| == n
  {
    hide UPPER, LOWER, DIGITS, SYMBOLS, FALLBACK;
    if n == 0 then ""
    else
      PoolsFilled(o, n - 1);
      Dealt(o, random, n - 1) + [Pick(PoolFor(Pools(o), n - 1), random(n - 1))]
  }

  function Size(o: Options): nat {
    if o.length < 0 then 0 else o.length
  }

  /** What the generator may return: a sort with a random comparison leaves the characters in any order. */
  predicate Generates(o: Options, random: nat -> Chance, password: string) {
    multiset(password) == multiset(Dealt(o, random, Size(o)))
  }

  lemma {:induction false} PoolsFilled(o: Options, index: nat)
    ensures PoolFor(Pools(o), index) != ""
  {
    assert |UPPER| == 24 && |LOWER| == 25 && |DIGITS| == 8 && |SYMBOLS| == 13 && |FALLBACK| == 33;
    hide UPPER, LOWER, DIGITS, SYMBOLS, FALLBACK;
  }

  // ---------------------------------------------------------------- counting

  function CountIn(s: string, pool: string): nat {
    if s == "" then 0 else CountIn(s[..|s| - 1], pool) + if s[|s| - 1] in pool then 1 else 0
  }

  /** How many of the indices below n fall to class j of k: the rounded-up quotient of n - j by k. */
  function Share(n: nat, k: nat, j: nat): nat
    requires j < k
  {
    if j < n then (n - j + k - 1) / k else 0
  }

  lemma {:induction false} CountOfLast(s: string, c: char, pool: string)
    ensures CountIn(s + [c], pool) == CountIn(s, pool) + if c in pool then 1 else 0
  {
    assert (s + [c])[..|s|] == s;
  }

  lemma {:induction false} CountMiddle(a: string, c: char, b: string, pool: string)
    ensures CountIn(a + [c] + b, pool) == CountIn(a + b, pool) + if c in pool then 1 else 0
  {
    hide CountIn;
    if b == "" {
      assert a + [c] + b == a + [c] && a + b == a;
      CountOfLast(a, c, pool);
    } else {
      var init, last := b[..|b| - 1], b[|b| - 1];
      CountMiddle(a, c, init, pool);
      CountOfLast(a + [c] + init, last, pool);
      CountOfLast(a + init, last, pool);
      assert a + [c] + b == a + [c] + init + [last] && a + b == a + init + [last];
    }
  }

  lemma {:induction false} TakeOne(s: string, t: string, p: nat)
    requires s != "" && p < |t| && t[p] == s[|s| - 1] && multiset(s) == multiset(t)
    ensures multiset(s[..|s| - 1]) == multiset(t[..p] + t[p + 1..])
  {
    assert s == s[..|s| - 1] + [t[p]];
    assert t == t[..p] + [t[p]] + t[p + 1..];
    assert multiset(s[..|s| - 1]) == multiset(s) - multiset{t[p]};
    assert multiset(t[..p] + t[p + 1..]) == multiset(t) - multiset{t[p]};
  }

  lemma {:induction false} CountOfPermutation(s: string, t: string, pool: string)
    requires multiset(s) == multiset(t)
    ensures CountIn(s, pool) == CountIn(t, pool)
  {
    if s == "" {
      assert |multiset(t)| == 0;
    } else {
      assert s[|s| - 1] in multiset(t);
      var p :| 0 <= p < |t| && t[p] == s[|s| - 1];
      TakeOne(s, t, p);
      CountMiddle(t[..p], t[p], t[p + 1..], pool);
      assert t == t[..p] + [t[p]] + t[p + 1..];
      CountOfPermutation(s[..|s| - 1], t[..p] + t[p + 1..], pool);
    }
  }

  /** Letters, digits and symbols do not overlap. */
  function Class(c: char): nat {
    if 'A' <= c <= 'Z' then 0 else if 'a' <= c <= 'z' then 1 else if '0' <= c <= '9' then 2 else 3
  }

  lemma {:induction false} LetterClasses()
    ensures forall c | c in UPPER :: Class(c) == 0
    ensures forall c | c in LOWER :: Class(c) == 1
  {
  }

  lemma {:induction false} OtherClasses()
    ensures forall c | c in DIGITS :: Class(c) == 2
    ensures forall c | c in SYMBOLS :: Class(c) == 3
  {
  }

  lemma {:induction false} PoolsDisjoint(o: Options, c: char, i: nat, j: nat)
    requires i < |Pools(o)| && j < |Pools(o)| && c in Pools(o)[i] && c in Pools(o)[j]
    ensures i == j
  {
    hide UPPER, LOWER, DIGITS, SYMBOLS;
    LetterClasses();
    OtherClasses();
  }

  lemma {:induction false} NextMultiple(m: nat, q: nat, k: nat)
    requires m > q
    ensures m * k >= q * k + k
  {
    assert m * k == (m - 1) * k + k;
    if m - 1 > q {
      NextMultiple(m - 1, q, k);
    }
  }

  lemma {:induction false} Quotient(a: nat, k: nat, q: nat)
    requires q * k <= a < q * k + k
    ensures a / k == q && a % k == a - q * k
  {
    var m := a / k;
    assert a == m * k + a % k;
    if m > q {
      NextMultiple(m, q, k);
    } else if m < q {
      NextMultiple(q, m, k);
    }
  }

  lemma {:induction false} ShareSplit(q: nat, r: nat, k: nat, j: nat)
    requires j < k && r < k
    ensures Share(q * k + r, k, j) == q + if j < r then 1 else 0
  {
    var n := q * k + r;
    assert (q + 1) * k == q * k + k;
    if q > 0 {
      NextMultiple(q, 0, k);
    }
    if j < n {
      Quotient(n - j + k - 1, k, if j < r then q + 1 else q);
    }
  }

  lemma {:induction false} ShareGrows(n: nat, k: nat, j: nat)
    requires j < k
    ensures Share(n + 1, k, j) == Share(n, k, j) + if n % k == j then 1 else 0
  {
    hide Share;
    var q, r := n / k, n % k;
    ShareSplit(q, r, k, j);
    if r + 1 < k {
      ShareSplit(q, r + 1, k, j);
    } else {
      ShareSplit(q + 1, 0, k, j);
      assert (q + 1) * k + 0 == n + 1;
    }
  }

  lemma {:induction false} DealtCount(o: Options, random: nat -> Chance, n: nat, j: nat)
    requires j < |Pools(o)|
    ensures CountIn(Dealt(o, random, n), Pools(o)[j]) == Share(n, |Pools(o)|, j)
  {
    hide UPPER, LOWER, DIGITS, SYMBOLS, FALLBACK, Share, Pools, Pick;
    if n == 0 {
      ShareSplit(0, 0, |Pools(o)|, j);
    } else {
      PoolsFilled(o, n - 1);
      DealtCount(o, random, n - 1, j);
      ShareGrows(n - 1, |Pools(o)|, j);
      var chars := Dealt(o, random, n);
      var turn := (n - 1) % |Pools(o)|;
      assert chars[..n - 1] == Dealt(o, random, n - 1);
      assert chars[n - 1] in Pools(o)[turn];
      if chars[n - 1] in Pools(o)[j] {
        PoolsDisjoint(o, chars[n - 1], turn, j);
      }
    }
  }

  // ---------------------------------------------------------------- the promises

  /** Whatever the random choices and the final order, class j of the k enabled ones occurs exactly as
      often as there are indices j, j + k, j + 2k and so on below the length. */
  lemma {:induction false} ExactClassCounts(o: Options, random: nat -> Chance, password: string, j: nat)
    requires Generates(o, random, password) && j < |Pools(o)|
    ensures CountIn(password, Pools(o)[j]) == Share(Size(o), |Pools(o)|, j)
  {
    hide UPPER, LOWER, DIGITS, SYMBOLS, FALLBACK, Share, Pools;
    DealtCount(o, random, Size(o), j);
    CountOfPermutation(password, Dealt(o, random, Size(o)), Pools(o)[j]);
  }

  /** Every enabled class appears exactly when the length reaches the number of classes. */
  lemma {:induction false} EveryClassAppears(o: Options, random: nat -> Chance, password: string)
    requires Generates(o, random, password)
    ensures (forall pool | pool in Pools(o) :: exists c | c in password :: c in pool) <==> Size(o) >= |Pools(o)|
  {
    hide UPPER, LOWER, DIGITS, SYMBOLS, FALLBACK, Pools, Generates, Share;
    var k := |Pools(o)|;
    forall j | 0 <= j < k
      ensures (exists c | c in password :: c in Pools(o)[j]) <==> j < Size(o)
    {
      ExactClassCounts(o, random, password, j);
      SharePositive(Size(o), k, j);
      CountPositive(password, Pools(o)[j]);
    }
    if k > 0 {
      assert Pools(o)[k - 1] in Pools(o);
    }
  }

  lemma {:induction false} SharePositive(n: nat, k: nat, j: nat)
    requires j < k
    ensures Share(n, k, j) > 0 <==> j < n
  {
    if j < n {
      assert n - j + k - 1 >= k;
      assert (n - j + k - 1) / k >= 1;
    }
  }

  lemma {:induction false} CountPositive(s: string, pool: string)
    ensures CountIn(s, pool) > 0 <==> exists c | c in s :: c in pool
  {
    if s != "" {
      var init, last := s[..|s| - 1], s[|s| - 1];
      CountPositive(init, pool);
      assert s == init + [last];
    }
  }

  /** The password has the requested length, and every character comes from an enabled class, or from
      the fallback when none is enabled. */
  lemma {:induction false} OnlyEnabledCharacters(o: Options, random: nat -> Chance, password: string)
    requires Generates(o, random, password)
    ensures |password| == Size(o)
    ensures forall c | c in password ::
              if Pools(o) == [] then c in FALLBACK else exists pool | pool in Pools(o) :: c in pool
  {
    hide UPPER, LOWER, DIGITS, SYMBOLS, FALLBACK, Pools;
    var chars := Dealt(o, random, Size(o));
    assert |password| == |multiset(password)| && |chars| == |multiset(chars)|;
    DealtFromPools(o, random, Size(o));
    forall c | c in password
      ensures c in chars
    {
      assert c in multiset(password);
    }
  }

  lemma {:induction false} DealtFromPools(o: Options, random: nat -> Chance, n: nat)
    ensures forall c | c in Dealt(o, random, n) ::
              if Pools(o) == [] then c in FALLBACK else exists pool | pool in Pools(o) :: c in pool
  {
    hide UPPER, LOWER, DIGITS, SYMBOLS, FALLBACK, Pools, Pick;
    if n > 0 {
      PoolsFilled(o, n - 1);
      DealtFromPools(o, random, n - 1);
      var last := Pick(PoolFor(Pools(o), n - 1), random(n - 1));
      if Pools(o) != [] {
        assert PoolFor(Pools(o), n - 1) in Pools(o);
      }
    }
  }

  function One(option: bool): nat {
    if option then 1 else 0
  }

  /** The enabled classes by name, each at the place that the classes enabled before it leave. */
  lemma {:induction false} PoolsByName(o: Options)
    ensures |Pools(o)| == One(o.upper) + One(o.lower) + One(o.digits) + One(o.symbols)
    ensures o.upper ==> Pools(o)[0] == "ABCDEFGHJKLMNPQRSTUVWXYZ"
    ensures o.lower ==> Pools(o)[One(o.upper)] == "abcdefghijkmnopqrstuvwxyz"
    ensures o.digits ==> Pools(o)[One(o.upper) + One(o.lower)] == "23456789"
    ensures o.symbols ==> Pools(o)[One(o.upper) + One(o.lower) + One(o.digits)] == "!#$%&*+-=?@^_"
    ensures forall pool | pool in Pools(o) ::
              || (o.upper && pool == "ABCDEFGHJKLMNPQRSTUVWXYZ") || (o.lower && pool == "abcdefghijkmnopqrstuvwxyz")
              || (o.digits && pool == "23456789") || (o.symbols && pool == "!#$%&*+-=?@^_")
  {
    assert UPPER == "ABCDEFGHJKLMNPQRSTUVWXYZ" && LOWER == "abcdefghijkmnopqrstuvwxyz" && DIGITS == "23456789"
      && SYMBOLS == "!#$%&*+-=?@^_";
    hide UPPER, LOWER, DIGITS, SYMBOLS;
  }

  /** The options are kept: a password of the given length, or none for a negative one, has only characters of the
      enabled classes. Upper-case letters, lower-case letters, digits and symbols, as far as they are enabled, share
      the length, the first ones in this order taking what is left over. With no class enabled it has lower-case
      letters and digits. */
  lemma {:induction false} OptionsKept(o: Options, random: nat -> Chance, password: string)
    requires Generates(o, random, password)
    ensures |password| == if o.length < 0 then 0 else o.length
    ensures var n, k := |password|, One(o.upper) + One(o.lower) + One(o.digits) + One(o.symbols);
            && (o.upper ==> CountIn(password, "ABCDEFGHJKLMNPQRSTUVWXYZ") == Share(n, k, 0))
            && (o.lower ==> CountIn(password, "abcdefghijkmnopqrstuvwxyz") == Share(n, k, One(o.upper)))
            && (o.digits ==> CountIn(password, "23456789") == Share(n, k, One(o.upper) + One(o.lower)))
            && (o.symbols ==>
                  CountIn(password, "!#$%&*+-=?@^_") == Share(n, k, One(o.upper) + One(o.lower) + One(o.digits)))
            && forall c | c in password ::
                 || (o.upper && c in "ABCDEFGHJKLMNPQRSTUVWXYZ") || (o.lower && c in "abcdefghijkmnopqrstuvwxyz")
                 || (o.digits && c in "23456789") || (o.symbols && c in "!#$%&*+-=?@^_")
                 || (k == 0 && c in "abcdefghijkmnopqrstuvwxyz23456789")
  {
    assert FALLBACK == "abcdefghijkmnopqrstuvwxyz23456789";
    PoolsByName(o);
    OnlyEnabledCharacters(o, random, password);
    hide UPPER, LOWER, DIGITS, SYMBOLS, FALLBACK, Pools, Generates, Share, CountIn;
    if o.upper {
      ExactClassCounts(o, random, password, 0);
    }
    if o.lower {
      ExactClassCounts(o, random, password, One(o.upper));
    }
    if o.digits {
      ExactClassCounts(o, random, password, One(o.upper) + One(o.lower));
    }
    if o.symbols {
      ExactClassCounts(o, random, password, One(o.upper) + One(o.lower) + One(o.digits));
    }
  }

  /** The turns below n that belong to class j of k. */
  function Turns(n: nat, k: nat, j: nat): set<int>
    requires j < k
  {
    set i | 0 <= i < n && i % k == j
  }

  /** A class's share of n is the number of its turns. */
  lemma {:induction false} ShareExactly(n: nat, k: nat, j: nat)
    requires j < k
    ensures Share(n, k, j) == |Turns(n, k, j)|
  {
    if n == 0 {
      assert Turns(n, k, j) == {};
    } else {
      ShareExactly(n - 1, k, j);
      ShareGrows(n - 1, k, j);
      OneMore(Turns(n, k, j), Turns(n - 1, k, j), n - 1, (n - 1) % k == j);
    }
  }
}
