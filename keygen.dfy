/**
 * Referral-key generation (generateUniqueKey in reffera.php).
 *
 * The PHP function appends `length` characters, each chosen as
 * `$characters[random_int(0, 61)]`. The random source is not modelled as
 * randomness: the caller supplies the stream of indices random_int would
 * have produced, one CharIndex per character.
 */
module KeyGen {
  import opened Wrappers

  /** The key alphabet, written in three literal pieces; together they are
      "0123456789abcdefghijklmnopqrstuvwxyzABCDEFGHIJKLMNOPQRSTUVWXYZ". */
  const Digits: string := "0123456789"
  const Lower: string := "abcdefghijklmnopqrstuvwxyz"
  const Upper: string := "ABCDEFGHIJKLMNOPQRSTUVWXYZ"
  const Alphabet: string := Digits + Lower + Upper

  /** The default of the `$length` parameter. */
  const DefaultKeyLength: nat := 16

  /** One result of random_int(0, strlen($characters) - 1): always a valid index. */
  newtype CharIndex = i: int | 0 <= i < 62

  predicate IsAlphanumeric(c: char) {
    '0' <= c <= '9' || 'a' <= c <= 'z' || 'A' <= c <= 'Z'
  }

  /** The character at position i of Alphabet, computed from the three ranges. */
  function CharAt(i: CharIndex): char {
    if i < 10 then '0' + (i as int) as char
    else if i < 36 then 'a' + (i as int - 10) as char
    else 'A' + (i as int - 36) as char
  }

  /** Where c stands in Alphabet, if it stands there at all. */
  function IndexOf(c: char): (r: Option<CharIndex>)
    ensures r.Some? <==> IsAlphanumeric(c)
    ensures r.Some? ==> CharAt(r.value) == c
  {
    if '0' <= c <= '9' then Some((c as int - '0' as int) as CharIndex)
    else if 'a' <= c <= 'z' then Some((c as int - 'a' as int + 10) as CharIndex)
    else if 'A' <= c <= 'Z' then Some((c as int - 'A' as int + 36) as CharIndex)
    else None
  }

  /** Each position of the alphabet holds a distinct alphanumeric character:
      IndexOf maps it back to its position. */
  lemma CharAtDecodes(i: CharIndex)
    ensures IsAlphanumeric(CharAt(i)) && IndexOf(CharAt(i)) == Some(i)
  {
  }

  /** strlen($characters) is 62 and position i of the literal is CharAt(i). */
  lemma AlphabetShape()
    ensures |Alphabet| == 62
    ensures forall i: CharIndex :: Alphabet[i] == CharAt(i)
  {
    assert forall i :: 0 <= i < 10 ==> Digits[i] == '0' + i as char;
    assert forall i :: 0 <= i < 26 ==> Lower[i] == 'a' + i as char;
    assert forall i :: 0 <= i < 26 ==> Upper[i] == 'A' + i as char;
  }

  /** AlphabetShape and CharAtDecodes at a single position. */
  lemma AlphabetAt(i: CharIndex)
    ensures Alphabet[i] == CharAt(i) && IsAlphanumeric(Alphabet[i]) && IndexOf(Alphabet[i]) == Some(i)
  {
    AlphabetShape();
    CharAtDecodes(i);
  }

  /** The key that the draws `draws` produce, one character appended per draw. */
  function KeyFromDraws(draws: seq<CharIndex>): (key: string)
    ensures |key| == |draws|
    ensures forall c :: c in key ==> IsAlphanumeric(c)
  {
    if draws == [] then ""
    else
      AlphabetAt(draws[|draws| - 1]);
      KeyFromDraws(draws[..|draws| - 1]) + [Alphabet[draws[|draws| - 1]]]
  }

  /** Position k of the key is the alphabet character that draw k selected. */
  lemma {:induction false} KeyFromDrawsAt(draws: seq<CharIndex>, k: nat)
    requires k < |draws|
    ensures KeyFromDraws(draws)[k] == Alphabet[draws[k]]
  {
    if k < |draws| - 1 {
      KeyFromDrawsAt(draws[..|draws| - 1], k);
    }
  }

  /** Reads a key back into the draws that produced it; fails on a character
      outside the alphabet. */
  function DecodeKey(key: string): (r: Option<seq<CharIndex>>)
    ensures r.Some? ==> |r.value| == |key|
    ensures r.Some? <==> forall c :: c in key ==> IsAlphanumeric(c)
  {
    if key == [] then Some([])
    else
      match (DecodeKey(key[..|key| - 1]), IndexOf(key[|key| - 1]))
      case (Some(prefix), Some(i)) => Some(prefix + [i])
      case _ =>
        assert key[|key| - 1] in key;
        None
  }

  /** Decoding one more character extends the decoded prefix by its index. */
  lemma DecodeKeySnoc(prefix: string, c: char)
    ensures DecodeKey(prefix + [c])
         == if DecodeKey(prefix).Some? && IndexOf(c).Some?
            then Some(DecodeKey(prefix).value + [IndexOf(c).value]) else None
  {
  }

  /** Decoding a generated key gives back exactly its draws. */
  lemma {:induction false} DecodeKeyFromDraws(draws: seq<CharIndex>)
    ensures DecodeKey(KeyFromDraws(draws)) == Some(draws)
  {
    if draws != [] {
      var init, last := draws[..|draws| - 1], draws[|draws| - 1];
      var key := KeyFromDraws(draws);
      var prefix := KeyFromDraws(init);
      assert key == prefix + [Alphabet[last]];
      DecodeKeyFromDraws(init);
      AlphabetAt(last);
      DecodeKeySnoc(prefix, Alphabet[last]);
      assert init + [last] == draws;
    }
  }

  /** Two draw streams give the same key only if they are the same stream:
      a key collision is exactly a collision of the random indices. */
  lemma KeyFromDrawsInjective(d1: seq<CharIndex>, d2: seq<CharIndex>)
    ensures KeyFromDraws(d1) == KeyFromDraws(d2) <==> d1 == d2
  {
    DecodeKeyFromDraws(d1);
    DecodeKeyFromDraws(d2);
  }

  /**
   * generateUniqueKey(int $length = 16): `draws` is the random_int stream and
   * the loop consumes its first `length` entries, appending one character per
   * iteration. A length of 0 or less runs no iteration and gives "".
   */
  method GenerateUniqueKey(draws: seq<CharIndex>, length: int := DefaultKeyLength) returns (key: string)
    requires length <= |draws|
    ensures length <= 0 ==> key == ""
    ensures 0 <= length ==> key == KeyFromDraws(draws[..length])
    ensures 0 <= length ==> |key| == length
    ensures forall k :: 0 <= k < length ==> key[k] == Alphabet[draws[k]]
  {
    key := "";
    var i := 0;
    while i < length
      invariant 0 <= i && (i <= length || i == 0)
      invariant key == KeyFromDraws(draws[..i])
    {
      assert draws[..i + 1][..i] == draws[..i];
      key := key + [Alphabet[draws[i]]];
      i := i + 1;
    }
    forall k | 0 <= k < length
      ensures key[k] == Alphabet[draws[k]]
    {
      KeyFromDrawsAt(draws[..length], k);
    }
  }
}
