/** User codes of the device grant (section 6.1 of RFC 8628): `generateUserCode` maps random
    bytes onto an alphabet of 32 characters, and every code is equally likely. */
module UserCode {
  import opened Text

  type Byte = b: int | 0 <= b < 256

  const ALPHABET := "ABCDEFGHJKLMNPQRSTUVWXYZ23456789"
  const CODE_LENGTH := 8

  function CharFor(b: Byte): char {
    ALPHABET[b % 32]
  }

  function Encode(bytes: seq<Byte>): string {
    Map(CharFor, bytes)
  }

  /** The loop over the random bytes; without random bytes, over the characters of a UUID. */
  method GenerateUserCode(randomBytes: Option<seq<Byte>>, uuid: seq<Byte>) returns (code: string)
    requires randomBytes.Some? ==> |randomBytes.value| == 8
    ensures code == match randomBytes
                    case Some(bytes) => Encode(bytes)
                    case None => Encode(if |uuid| < 8 then uuid else uuid[..8])
  {
    var bytes := match randomBytes case Some(b) => b case None => uuid;
    code := "";
    var i := 0;
    while i < CODE_LENGTH && i < |bytes|
      invariant 0 <= i <= CODE_LENGTH && i <= |bytes|
      invariant code == Encode(bytes[..i])
    {
      assert bytes[..i + 1] == bytes[..i] + [bytes[i]];
      code := code + [ALPHABET[bytes[i] % |ALPHABET|]];
      i := i + 1;
    }
    assert i == |bytes| ==> bytes[..i] == bytes;
  }

  // ---------- counting ----------

  /** The bytes that give the character at a position of the alphabet. */
  function BytesFor(k: nat): set<Byte>
    requires k < 32
  {
    {k, k + 32, k + 64, k + 96, k + 128, k + 160, k + 192, k + 224}
  }

  lemma EightBytes(k: nat, b: Byte)
    requires k < 32
    ensures |BytesFor(k)| == 8 && (b in BytesFor(k) <==> b % 32 == k)
  {
    assert b == 32 * (b / 32) + b % 32 && 0 <= b / 32 < 8;
  }

  /** The position of a character of the alphabet. */
  function Position(c: char): int {
    if 'A' <= c <= 'H' then c as int - 'A' as int
    else if 'J' <= c <= 'N' then 8 + (c as int - 'J' as int)
    else if 'P' <= c <= 'Z' then 13 + (c as int - 'P' as int)
    else 24 + (c as int - '2' as int)
  }

  lemma PositionOf(k: nat)
    requires k < 32
    ensures |ALPHABET| == 32 && Position(ALPHABET[k]) == k
  {
    if k < 13 { PositionInFront(k); } else { PositionBehind(k); }
  }

  lemma PositionInFront(k: nat)
    requires k < 13
    ensures Position(ALPHABET[k]) == k
  {}

  lemma PositionBehind(k: nat)
    requires 13 <= k < 32
    ensures Position(ALPHABET[k]) == k
  {}

  /** The 32 characters are different, so a character has one position. */
  lemma AlphabetIsDistinct(i: nat, j: nat)
    requires i < j < 32
    ensures |ALPHABET| == 32 && ALPHABET[i] != ALPHABET[j]
  {
    PositionOf(i);
    PositionOf(j);
  }

  function Pow8(n: nat): nat {
    if n == 0 then 1 else 8 * Pow8(n - 1)
  }

  /** A code, by the positions of its characters in the alphabet. */
  type Positions = ks: seq<nat> | forall i | 0 <= i < |ks| :: ks[i] < 32

  function CharAt(k: nat): char {
    if k < 32 then ALPHABET[k] else ' '
  }

  function Spell(ks: Positions): string {
    Map(CharAt, ks)
  }

  /** Every byte string of the sort in front of every string of a set. */
  function Prepend(bytes: set<Byte>, tails: set<seq<Byte>>): set<seq<Byte>> {
    set b, t | b in bytes && t in tails :: [b] + t
  }

  /** The byte strings that give a code. */
  function Preimages(ks: Positions): set<seq<Byte>> {
    if ks == [] then {[]} else Prepend(BytesFor(ks[0]), Preimages(ks[1..]))
  }

  lemma {:induction false} PrependOneSize(b: Byte, tails: set<seq<Byte>>)
    ensures |Prepend({b}, tails)| == |tails|
  {
    if tails == {} {
      assert Prepend({b}, tails) == {};
    } else {
      var t :| t in tails;
      var rest := tails - {t};
      PrependOneSize(b, rest);
      assert tails == rest + {t};
      OneMoreTail(b, t, rest);
    }
  }

  lemma OneMoreTail(b: Byte, t: seq<Byte>, rest: set<seq<Byte>>)
    requires t !in rest
    ensures |Prepend({b}, rest + {t})| == |Prepend({b}, rest)| + 1
  {
    var all, less := Prepend({b}, rest + {t}), Prepend({b}, rest);
    assert ([b] + t)[1..] == t;
    PrependMember({b}, rest, [b] + t);
    forall x ensures x in all <==> x in less + {[b] + t} {
      PrependMember({b}, rest + {t}, x);
      PrependMember({b}, rest, x);
      HeadAndRest(x, b, t);
    }
    assert all == less + {[b] + t};
  }

  lemma HeadAndRest(x: seq<Byte>, b: Byte, t: seq<Byte>)
    ensures x == [b] + t <==> x != [] && x[0] == b && x[1..] == t
  {
    if x != [] { assert x == [x[0]] + x[1..]; }
    assert ([b] + t)[1..] == t;
  }

  lemma {:induction false} PrependSize(bytes: set<Byte>, tails: set<seq<Byte>>)
    ensures |Prepend(bytes, tails)| == |bytes| * |tails|
  {
    if bytes == {} {
      NothingPrepended(tails);
    } else {
      var b :| b in bytes;
      var rest := bytes - {b};
      PrependSize(rest, tails);
      assert bytes == rest + {b};
      PrependSplits(b, rest, tails);
      OneMore(|rest|, |bytes|, |tails|);
    }
  }

  lemma NothingPrepended(tails: set<seq<Byte>>)
    ensures |Prepend({}, tails)| == 0
  {
    assert Prepend({}, tails) == {};
  }

  lemma OneMore(fewer: nat, more: nat, n: nat)
    requires more == fewer + 1
    ensures more * n == fewer * n + n
  {}

  lemma PrependSplits(b: Byte, rest: set<Byte>, tails: set<seq<Byte>>)
    requires b !in rest
    ensures |Prepend(rest + {b}, tails)| == |Prepend(rest, tails)| + |tails|
  {
    PrependOneSize(b, tails);
    var all, left, right := Prepend(rest + {b}, tails), Prepend(rest, tails), Prepend({b}, tails);
    forall x ensures (x in all <==> x in left + right) && !(x in left && x in right) {
      PrependMember(rest + {b}, tails, x);
      PrependMember(rest, tails, x);
      PrependMember({b}, tails, x);
    }
    assert all == left + right && left !! right;
  }

  lemma PrependMember(bytes: set<Byte>, tails: set<seq<Byte>>, x: seq<Byte>)
    ensures x in Prepend(bytes, tails) <==> x != [] && x[0] in bytes && x[1..] in tails
  {
    if x != [] && x[0] in bytes && x[1..] in tails { assert x == [x[0]] + x[1..]; }
    if x in Prepend(bytes, tails) {
      var b, t :| b in bytes && t in tails && x == [b] + t;
      assert x[1..] == t;
    }
  }

  lemma {:induction false} SameChar(b: Byte, k: nat)
    requires k < 32
    ensures CharFor(b) == CharAt(k) <==> b % 32 == k
  {
    if b % 32 < k { AlphabetIsDistinct(b % 32, k); }
    if k < b % 32 { AlphabetIsDistinct(k, b % 32); }
  }

  /** Every code of n characters of the alphabet is given by exactly 8^n of the byte strings
      of length n, and by no other: all codes are equally likely. */
  lemma {:induction false} CodesAreEquallyLikely(ks: Positions)
    ensures |Preimages(ks)| == Pow8(|ks|)
    ensures forall bytes: seq<Byte> :: bytes in Preimages(ks) <==> Encode(bytes) == Spell(ks)
  {
    PreimagesSize(ks);
    forall bytes: seq<Byte> ensures bytes in Preimages(ks) <==> Encode(bytes) == Spell(ks) {
      PreimagesGiveTheCode(bytes, ks);
    }
  }

  lemma {:induction false} PreimagesSize(ks: Positions)
    ensures |Preimages(ks)| == Pow8(|ks|)
  {
    if ks != [] {
      PreimagesSize(ks[1..]);
      PrependSize(BytesFor(ks[0]), Preimages(ks[1..]));
      EightBytes(ks[0], 0);
    }
  }

  lemma {:induction false} PreimagesGiveTheCode(bytes: seq<Byte>, ks: Positions)
    ensures bytes in Preimages(ks) <==> Encode(bytes) == Spell(ks)
    decreases ks
  {
    if ks == [] {
      assert |Encode(bytes)| == |bytes|;
    } else {
      PrependMember(BytesFor(ks[0]), Preimages(ks[1..]), bytes);
      HeadAndTail(bytes, ks);
      if bytes != [] { PreimagesGiveTheCode(bytes[1..], ks[1..]); }
    }
  }

  lemma {:induction false} HeadAndTail(bytes: seq<Byte>, ks: Positions)
    requires ks != []
    ensures Encode(bytes) == Spell(ks) <==>
            bytes != [] && bytes[0] in BytesFor(ks[0]) && Encode(bytes[1..]) == Spell(ks[1..])
  {
    var x, y := Encode(bytes), Spell(ks);
    assert |x| == |bytes|;
    if bytes != [] {
      assert x[1..] == Encode(bytes[1..]) && y[1..] == Spell(ks[1..]);
      assert x == [x[0]] + x[1..] && y == [y[0]] + y[1..];
      SameChar(bytes[0], ks[0]);
      EightBytes(ks[0], bytes[0]);
    }
  }
}
