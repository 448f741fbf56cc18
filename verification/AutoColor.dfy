/** The colour a tag gets from its text: the wrapping 64-bit hash of internal/monitor/kuma/tag_manager.go. */
module AutoColor {
  import opened Text

  const MIN_INT64 := -0x8000_0000_0000_0000
  const TWO_64 := 0x1_0000_0000_0000_0000

  const COLORS := [
    "#ef4444", "#f97316", "#f59e0b", "#eab308", "#84cc16", "#22c55e",
    "#10b981", "#14b8a6", "#06b6d4", "#0ea5e9", "#3b82f6", "#6366f1",
    "#8b5cf6", "#a855f7", "#d946ef", "#ec4899", "#f43f5e",
    "#dc2626", "#ea580c", "#d97706", "#ca8a04", "#65a30d", "#16a34a",
    "#059669", "#0d9488", "#0891b2", "#0284c7", "#2563eb", "#4f46e5",
    "#7c3aed", "#9333ea", "#c026d3", "#db2777", "#e11d48"
  ]

  /** The value of an integer kept in 64 bits, two's complement. */
  function Wrap(x: int): int {
    (x - MIN_INT64) % TWO_64 + MIN_INT64
  }

  /** Go's `%`, whose remainder takes the sign of the dividend. */
  function Remainder(x: int, m: int): int
    requires m > 0
  {
    if x >= 0 then x % m else -(-x % m)
  }

  function Step(hash: int, c: char): int {
    Wrap(Wrap(Wrap(hash * 32) + hash) + c as int)
  }

  function HashFrom(hash: int, tag: string): int {
    if tag == "" then hash else Step(HashFrom(hash, tag[..|tag| - 1]), tag[|tag| - 1])
  }

  function Hash(tag: string): int {
    HashFrom(5381, tag)
  }

  /** The index into the colours; Go panics where it is out of range. */
  function Index(hash: int): int {
    Remainder(if hash < 0 then Wrap(-hash) else hash, |COLORS|)
  }

  function Color(tag: string): Option<string> {
    var i := Index(Hash(tag));
    if 0 <= i < |COLORS| then Some(COLORS[i]) else None
  }

  method GetAutoColor(tag: string) returns (color: Option<string>)
    ensures color == Color(tag)
  {
    var hash := 5381;
    for i := 0 to |tag|
      invariant hash == HashFrom(5381, tag[..i])
    {
      assert tag[..i + 1][..i] == tag[..i];
      hash := Wrap(Wrap(Wrap(hash * 32) + hash) + tag[i] as int);
    }
    assert tag[..|tag|] == tag;
    if hash < 0 {
      hash := Wrap(-hash);
    }
    var i := Remainder(hash, |COLORS|);
    color := None;
    if 0 <= i < |COLORS| {
      color := Some(COLORS[i]);
    }
  }

  function Power33(n: nat): nat {
    if n == 0 then 1 else 33 * Power33(n - 1)
  }

  /** The text as a number: each character times 33 to the number of characters after it. */
  function Weighted(tag: string): nat {
    if tag == "" then 0 else tag[0] as int * Power33(|tag| - 1) + Weighted(tag[1..])
  }

  lemma WrapIsClose(x: int) returns (k: int)
    ensures Wrap(x) == x + k * TWO_64 && MIN_INT64 <= Wrap(x) < -MIN_INT64
  {
    k := -((x - MIN_INT64) / TWO_64);
  }

  lemma WrapIgnores(x: int, k: int)
    ensures Wrap(x + k * TWO_64) == Wrap(x)
  {
  }

  /** One round multiplies by 33 and adds the character, wrapped once. */
  lemma StepIs(hash: int, c: char)
    ensures Step(hash, c) == Wrap(33 * hash + c as int)
  {
    hide Wrap;
    var k := WrapIsClose(hash * 32);
    var l := WrapIsClose(Wrap(hash * 32) + hash);
    assert Wrap(Wrap(hash * 32) + hash) + c as int == (33 * hash + c as int) + (k + l) * TWO_64;
    WrapIgnores(33 * hash + c as int, k + l);
  }

  lemma {:induction false} PowerSplits(m: nat, n: nat)
    ensures Power33(m + n) == Power33(m) * Power33(n)
  {
    if m > 0 {
      PowerSplits(m - 1, n);
    }
  }

  lemma Distributes(c: int, p: int, q: int, w: int)
    ensures c * (p * q) + w * q == (c * p + w) * q
  {
  }

  /** The concatenation law of the text's number. */
  lemma {:induction false} WeightedConcat(a: string, b: string)
    ensures Weighted(a + b) == Weighted(a) * Power33(|b|) + Weighted(b)
  {
    if a == "" {
      assert a + b == b;
    } else {
      hide Power33;
      assert (a + b)[1..] == a[1..] + b;
      WeightedConcat(a[1..], b);
      PowerSplits(|a| - 1, |b|);
      Distributes(a[0] as int, Power33(|a| - 1), Power33(|b|), Weighted(a[1..]));
    }
  }

  /** The loop computes hash times a power of 33 plus the text's number, wrapped only once at the end. */
  lemma {:induction false} HashIsPolynomial(hash: int, tag: string)
    ensures tag != "" ==> HashFrom(hash, tag) == Wrap(hash * Power33(|tag|) + Weighted(tag))
  {
    hide Wrap, Step;
    if tag != "" {
      var n := |tag| - 1;
      var front, c := tag[..n], tag[n];
      assert tag == front + [c];
      WeightedConcat(front, [c]);
      assert Weighted([c]) == c as int && Power33(1) == 33;
      StepIs(HashFrom(hash, front), c);
      var whole := hash * Power33(n) + Weighted(front);
      assert hash * Power33(n + 1) == 33 * (hash * Power33(n));
      if front == "" {
        assert HashFrom(hash, front) == hash;
        assert whole == hash;
      } else {
        HashIsPolynomial(hash, front);
        var k := WrapIsClose(whole);
        assert 33 * Wrap(whole) + c as int == 33 * whole + c as int + (33 * k) * TWO_64;
        WrapIgnores(33 * whole + c as int, 33 * k);
      }
    }
  }

  /** Hashing can go on where it stopped. */
  lemma {:induction false} HashConcat(hash: int, a: string, b: string)
    ensures HashFrom(hash, a + b) == HashFrom(HashFrom(hash, a), b)
  {
    hide Step;
    if b == "" {
      assert a + b == a;
    } else {
      assert (a + b)[..|a + b| - 1] == a + b[..|b| - 1];
      HashConcat(hash, a, b[..|b| - 1]);
    }
  }

  lemma HashInRange(tag: string)
    ensures MIN_INT64 <= Hash(tag) < -MIN_INT64
  {
  }

  /** A tag gets one of the 34 colours unless its hash is the smallest 64-bit integer, whose negation wraps back. */
  lemma ColorExists(tag: string)
    ensures Color(tag).Some? <==> Hash(tag) != MIN_INT64
    ensures Hash(tag) != MIN_INT64 ==>
      Color(tag) == Some(COLORS[(if Hash(tag) < 0 then -Hash(tag) else Hash(tag)) % |COLORS|])
    ensures Index(MIN_INT64) == -26
  {
    hide Hash, Index;
    HashInRange(tag);
    IndexIs(Hash(tag));
    IndexIs(MIN_INT64);
  }

  lemma IndexIs(hash: int)
    requires MIN_INT64 <= hash < -MIN_INT64
    ensures Index(hash) == if hash == MIN_INT64 then -26 else (if hash < 0 then -hash else hash) % 34
  {
  }

  lemma HashGrows(tag: string, k: nat, whole: int)
    requires k < |tag| && Hash(tag[..k]) == Wrap(whole)
    ensures Hash(tag[..k + 1]) == Wrap(33 * whole + tag[k] as int)
  {
    hide Wrap, Step;
    assert tag[..k + 1][..k] == tag[..k];
    StepIs(Wrap(whole), tag[k]);
    var l := WrapIsClose(whole);
    assert 33 * Wrap(whole) + tag[k] as int == 33 * whole + tag[k] as int + (33 * l) * TWO_64;
    WrapIgnores(33 * whole + tag[k] as int, 33 * l);
  }

  /** There are such tags, even short ones in small letters: Go panics on this one. */
  lemma ColorlessTag()
    ensures Hash("aieqwk-fjzxjnr") == MIN_INT64 && Color("aieqwk-fjzxjnr").None?
  {
    hide Hash, Wrap, Color;
    var tag := "aieqwk-fjzxjnr";
    EmptyHash(tag);
    HashGrows(tag, 0, 5381);
    HashGrows(tag, 1, 177670);
    HashGrows(tag, 2, 5863215);
    HashGrows(tag, 3, 193486196);
    HashGrows(tag, 4, 6385044581);
    HashGrows(tag, 5, 210706471292);
    HashGrows(tag, 6, 6953313552743);
    HashGrows(tag, 7, 229459347240564);
    HashGrows(tag, 8, 7572158458938714);
    HashGrows(tag, 9, 249881229144977668);
    HashGrows(tag, 10, 8246080561784263166);
    HashGrows(tag, 11, 272120658538880684598);
    HashGrows(tag, 12, 8979981731783062591840);
    HashGrows(tag, 13, 296339397148841065530830);
    assert tag[..14] == tag;
    LastRound();
    ColorExists(tag);
  }

  lemma LastRound()
    ensures Wrap(9779200105911755162517504) == MIN_INT64
  {
  }

  lemma EmptyHash(tag: string)
    ensures Hash(tag[..0]) == Wrap(5381)
  {
  }
}
