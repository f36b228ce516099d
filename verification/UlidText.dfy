/** The text form of an id, as stored in the `id` column: 26 characters of Crockford's base 32, most
    significant first. Text order is numeric order, so a keyset comparison on the column is one on
    the ids. */
module UlidText {
  import opened Records

  const ALPHABET: string := "0123456789ABCDEFGHJKMNPQRSTVWXYZ"

  /** `n` base-32 digits of `v`, most significant first. */
  function Digits(v: nat, n: nat): (s: string)
    ensures |s| == n
  {
    if n == 0 then [] else Digits(v / 32, n - 1) + [ALPHABET[v % 32]]
  }

  function Encode(id: Ulid): (s: string)
    ensures |s| == 26
  {
    Digits(id, 26)
  }

  function Pow32(n: nat): nat {
    if n == 0 then 1 else 32 * Pow32(n - 1)
  }

  /** Byte order on texts of equal length: the first difference decides. */
  predicate TextBelow(s: string, t: string) {
    if s == [] || t == [] then s == [] && t != []
    else if s[0] != t[0] then s[0] < t[0]
    else TextBelow(s[1..], t[1..])
  }

  lemma AlphabetOrdered(a: nat, b: nat)
    requires a < 32 && b < 32
    ensures ALPHABET[a] < ALPHABET[b] <==> a < b
    ensures ALPHABET[a] == ALPHABET[b] <==> a == b
  {
    assert forall i :: 0 <= i < 31 ==> ALPHABET[i] < ALPHABET[i + 1];
    if a < b {
      AlphabetRises(a, b);
    } else if b < a {
      AlphabetRises(b, a);
    }
  }

  lemma {:induction false} AlphabetRises(a: nat, b: nat)
    requires a < b < 32 && forall i :: 0 <= i < 31 ==> ALPHABET[i] < ALPHABET[i + 1]
    ensures ALPHABET[a] < ALPHABET[b]
    decreases b
  {
    if a < b - 1 {
      AlphabetRises(a, b - 1);
    }
  }

  /** Appending a digit: the leading texts decide unless they are equal. */
  lemma {:induction false} BelowAppend(s: string, t: string, x: char, y: char)
    requires |s| == |t|
    ensures TextBelow(s + [x], t + [y]) <==> TextBelow(s, t) || (s == t && x < y)
    decreases |s|
  {
    if s == [] {
      assert [x][1..] == [] && [y][1..] == [];
      assert s + [x] == [x] && t + [y] == [y];
    } else {
      assert (s + [x])[1..] == s[1..] + [x] && (t + [y])[1..] == t[1..] + [y];
      BelowAppend(s[1..], t[1..], x, y);
      assert s == t <==> s[0] == t[0] && s[1..] == t[1..] by {
        assert s == [s[0]] + s[1..] && t == [t[0]] + t[1..];
      }
    }
  }

  lemma {:induction false} DigitsOrdered(a: nat, b: nat, n: nat)
    requires a < Pow32(n) && b < Pow32(n)
    ensures TextBelow(Digits(a, n), Digits(b, n)) <==> a < b
    ensures Digits(a, n) == Digits(b, n) <==> a == b
    decreases n
  {
    if n > 0 {
      DigitsOrdered(a / 32, b / 32, n - 1);
      AlphabetOrdered(a % 32, b % 32);
      BelowAppend(Digits(a / 32, n - 1), Digits(b / 32, n - 1), ALPHABET[a % 32], ALPHABET[b % 32]);
      var s, t := Digits(a, n), Digits(b, n);
      assert s[..n - 1] == Digits(a / 32, n - 1) && t[..n - 1] == Digits(b / 32, n - 1);
      assert s[n - 1] == ALPHABET[a % 32] && t[n - 1] == ALPHABET[b % 32];
    }
  }

  lemma Pow32Covers()
    ensures Pow32(26) >= 0x1_0000_0000_0000_0000_0000_0000_0000_0000
  {
    assert Pow32(6) == 0x4000_0000;
    assert Pow32(12) == 0x1000_0000_0000_0000;
    assert Pow32(18) == 0x4000_0000 * 0x1000_0000_0000_0000;
    assert Pow32(24) == 0x1000_0000_0000_0000 * 0x1000_0000_0000_0000;
  }

  /** The text of an id identifies it, and sorts like it. */
  lemma EncodeOrdered(a: Ulid, b: Ulid)
    ensures TextBelow(Encode(a), Encode(b)) <==> a < b
    ensures Encode(a) == Encode(b) <==> a == b
  {
    Pow32Covers();
    DigitsOrdered(a, b, 26);
  }
}
