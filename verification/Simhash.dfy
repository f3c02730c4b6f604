/**
 The 64-bit simhash of backend/app/scraping/deduplication.py.

 A word is its 64 bits, bit 0 first. The low bits of a token's MD5 digest are an unseen function
 of the token, the same one throughout.
 */
module Simhash {

  const BITS: nat := 64

  type Word = w: seq<bool> | |w| == BITS witness seq(64, _ => false)

  type TokenHash = string -> Word

  function Vote(bit: bool): int {
    if bit then 1 else -1
  }

  // Counter `i` of the vector: the tokens whose bit `i` is set, less those whose bit is clear.
  function Counter(h: TokenHash, tokens: seq<string>, i: nat): int
    requires i < BITS
  {
    if tokens == [] then 0
    else Counter(h, tokens[..|tokens| - 1], i) + Vote(h(tokens[|tokens| - 1])[i])
  }

  ghost function Fingerprint(h: TokenHash, tokens: seq<string>): Word {
    seq(BITS, i requires 0 <= i < BITS => Counter(h, tokens, i) > 0)
  }

  method ComputeSimhash(h: TokenHash, tokens: seq<string>) returns (fingerprint: Word)
    ensures fingerprint == Fingerprint(h, tokens)
  {
    var v := new int[BITS](_ => 0);
    for t := 0 to |tokens|
      invariant forall i :: 0 <= i < BITS ==> v[i] == Counter(h, tokens[..t], i)
    {
      var word := h(tokens[t]);
      assert tokens[..t + 1][..t] == tokens[..t];
      for i := 0 to BITS
        invariant forall j :: 0 <= j < i ==> v[j] == Counter(h, tokens[..t + 1], j)
        invariant forall j :: i <= j < BITS ==> v[j] == Counter(h, tokens[..t], j)
      {
        if word[i] {
          v[i] := v[i] + 1;
        } else {
          v[i] := v[i] - 1;
        }
      }
    }
    assert tokens[..|tokens|] == tokens;
    fingerprint := seq(BITS, _ => false);
    for i := 0 to BITS
      invariant forall j :: 0 <= j < i ==> fingerprint[j] == (v[j] > 0)
      invariant forall j :: i <= j < BITS ==> !fingerprint[j]
    {
      if v[i] > 0 {
        fingerprint := fingerprint[i := true];
      }
    }
  }

  // ----- What the fingerprint depends on -----

  lemma {:induction false} CounterAdds(h: TokenHash, a: seq<string>, b: seq<string>, i: nat)
    requires i < BITS
    ensures Counter(h, a + b, i) == Counter(h, a, i) + Counter(h, b, i)
  {
    if b == [] {
      assert a + b == a;
    } else {
      assert (a + b)[..|a + b| - 1] == a + b[..|b| - 1];
      CounterAdds(h, a, b[..|b| - 1], i);
    }
  }

  lemma CounterWithout(h: TokenHash, b: seq<string>, k: nat, i: nat)
    requires i < BITS && k < |b|
    ensures Counter(h, b, i) == Counter(h, b[..k] + b[k + 1..], i) + Vote(h(b[k])[i])
    ensures multiset(b[..k] + b[k + 1..]) == multiset(b) - multiset{b[k]}
  {
    var left, right := b[..k], b[k + 1..];
    assert b == (left + [b[k]]) + right && (left + [b[k]])[..k] == left;
    CounterAdds(h, left, right, i);
    CounterAdds(h, left + [b[k]], right, i);
  }

  lemma {:induction false} CounterIgnoresOrder(h: TokenHash, a: seq<string>, b: seq<string>, i: nat)
    requires i < BITS && multiset(a) == multiset(b)
    ensures Counter(h, a, i) == Counter(h, b, i)
    decreases |a|
  {
    if a == [] {
      assert |b| == |multiset(b)| == 0;
    } else {
      var last := |a| - 1;
      assert a[last] in multiset(b);
      var k :| 0 <= k < |b| && b[k] == a[last];
      CounterWithout(h, a, last, i);
      CounterWithout(h, b, k, i);
      CounterIgnoresOrder(h, a[..last] + a[last + 1..], b[..k] + b[k + 1..], i);
    }
  }

  /** The fingerprint depends on which tokens occur and how often, not on their order. */
  lemma FingerprintIgnoresOrder(h: TokenHash, a: seq<string>, b: seq<string>)
    requires multiset(a) == multiset(b)
    ensures Fingerprint(h, a) == Fingerprint(h, b)
  {
    forall i: nat | i < BITS
      ensures Counter(h, a, i) == Counter(h, b, i)
    {
      CounterIgnoresOrder(h, a, b, i);
    }
  }

  ghost function Repeated(tokens: seq<string>, k: nat): seq<string> {
    if k == 0 then [] else Repeated(tokens, k - 1) + tokens
  }

  lemma {:induction false} CounterOfRepeated(h: TokenHash, tokens: seq<string>, k: nat, i: nat)
    requires i < BITS
    ensures Counter(h, Repeated(tokens, k), i) == k * Counter(h, tokens, i)
  {
    if k > 0 {
      CounterOfRepeated(h, tokens, k - 1, i);
      CounterAdds(h, Repeated(tokens, k - 1), tokens, i);
    }
  }

  lemma ScaledSign(k: nat, n: int)
    requires k >= 1
    ensures k * n > 0 <==> n > 0
  {
  }

  /** Repeating a text any number of times does not change its fingerprint. */
  lemma FingerprintOfRepeated(h: TokenHash, tokens: seq<string>, k: nat)
    requires k >= 1
    ensures Fingerprint(h, Repeated(tokens, k)) == Fingerprint(h, tokens)
  {
    forall i: nat | i < BITS
      ensures Counter(h, Repeated(tokens, k), i) > 0 <==> Counter(h, tokens, i) > 0
    {
      CounterOfRepeated(h, tokens, k, i);
      ScaledSign(k, Counter(h, tokens, i));
    }
  }

  // ----- Hamming distance -----

  function Xor(a: Word, b: Word): Word {
    seq(BITS, i requires 0 <= i < BITS => a[i] != b[i])
  }

  // bin(x).count("1")
  function Ones(w: seq<bool>): nat {
    if w == [] then 0 else Ones(w[..|w| - 1]) + if w[|w| - 1] then 1 else 0
  }

  function HammingDistance(a: Word, b: Word): nat {
    Ones(Xor(a, b))
  }

  lemma {:induction false} OnesOfCover(a: seq<bool>, b: seq<bool>, c: seq<bool>)
    requires |a| == |b| == |c|
    requires forall i :: 0 <= i < |a| && a[i] ==> b[i] || c[i]
    ensures Ones(a) <= Ones(b) + Ones(c)
  {
    if a != [] {
      OnesOfCover(a[..|a| - 1], b[..|b| - 1], c[..|c| - 1]);
    }
  }

  lemma {:induction false} OnesIsZeroIffClear(w: seq<bool>)
    ensures Ones(w) == 0 <==> forall i :: 0 <= i < |w| ==> !w[i]
    ensures Ones(w) <= |w|
  {
    if w != [] {
      OnesIsZeroIffClear(w[..|w| - 1]);
      assert forall i :: 0 <= i < |w| - 1 ==> w[i] == w[..|w| - 1][i];
    }
  }

  /** The Hamming distance is a metric on words, at most 64. */
  lemma HammingIsAMetric(a: Word, b: Word, c: Word)
    ensures HammingDistance(a, b) == 0 <==> a == b
    ensures HammingDistance(a, b) == HammingDistance(b, a) <= BITS
    ensures HammingDistance(a, c) <= HammingDistance(a, b) + HammingDistance(b, c)
  {
    OnesIsZeroIffClear(Xor(a, b));
    if HammingDistance(a, b) == 0 {
      forall i | 0 <= i < BITS
        ensures a[i] == b[i]
      {
        assert !Xor(a, b)[i];
      }
    }
    assert Xor(a, b) == Xor(b, a);
    OnesOfCover(Xor(a, c), Xor(a, b), Xor(b, c));
  }

  // ----- How far one more token moves the fingerprint -----

  // The bits whose counter is so close to the threshold that one vote can flip them.
  ghost function Close(h: TokenHash, tokens: seq<string>): Word {
    seq(BITS, i requires 0 <= i < BITS => Counter(h, tokens, i) == 0 || Counter(h, tokens, i) == 1)
  }

  /** Appending a token flips exactly the bits at 0 that it votes up and the bits at 1 that it votes down. */
  lemma AppendFlips(h: TokenHash, tokens: seq<string>, token: string, i: nat)
    requires i < BITS
    ensures Fingerprint(h, tokens + [token])[i] != Fingerprint(h, tokens)[i] <==>
      Counter(h, tokens, i) == (if h(token)[i] then 0 else 1)
  {
    assert (tokens + [token])[..|tokens|] == tokens;
  }

  lemma AppendMovesLittle(h: TokenHash, tokens: seq<string>, token: string)
    ensures HammingDistance(Fingerprint(h, tokens), Fingerprint(h, tokens + [token])) <= Ones(Close(h, tokens))
  {
    var none := seq(BITS, i requires 0 <= i < BITS => false);
    var a, b := Fingerprint(h, tokens), Fingerprint(h, tokens + [token]);
    forall i: nat | i < BITS && Xor(a, b)[i]
      ensures Close(h, tokens)[i]
    {
      AppendFlips(h, tokens, token, i);
    }
    OnesIsZeroIffClear(none);
    OnesOfCover(Xor(a, b), Close(h, tokens), none);
  }
}
