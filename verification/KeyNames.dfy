/**
 Names of 256-bit keys: the letter e and 52 base-32 digits, least significant first; and
 the reader documented as the inverse, which takes the digits most significant first.
 */
module KeyNames {
  import opened Options
  import opened GpTree

  const ALPHABET: string := "abcdefghijklmnopqrstuvwxyz234567"

  type Key = k: Bytes | |k| == 32 witness seq(32, _ => 0)
  type Digit = d: int | 0 <= d < 32

  // ---------- bits, bytes and base-32 digits of a number ----------

  /** The number without its k lowest bits. */
  function DropBits(n: nat, k: nat): nat
    decreases k, n
  {
    if k == 0 then n else DropBits(n / 2, k - 1)
  }

  function LowBits(n: nat, k: nat): seq<nat>
    decreases k, n
  {
    if k == 0 then [] else [n % 2] + LowBits(n / 2, k - 1)
  }

  /** The l lowest bytes, least significant first. */
  function LowBytes(n: nat, l: nat): (r: Bytes)
    ensures |r| == l
    decreases l, n
  {
    if l == 0 then [] else [n % 256] + LowBytes(n / 256, l - 1)
  }

  function OfBytes(bytes: Bytes): nat {
    if bytes == [] then 0 else bytes[0] + 256 * OfBytes(bytes[1..])
  }

  /** The l lowest base-32 digits, least significant first. */
  function LowDigits(n: nat, l: nat): (r: seq<Digit>)
    ensures |r| == l
    decreases l, n
  {
    if l == 0 then [] else [n % 32] + LowDigits(n / 32, l - 1)
  }

  function OfDigits(digits: seq<Digit>): nat {
    if digits == [] then 0 else digits[0] + 32 * OfDigits(digits[1..])
  }

  lemma {:induction false} DropMore(n: nat, j: nat, k: nat)
    ensures DropBits(n, j + k) == DropBits(DropBits(n, j), k)
    ensures LowBits(n, j + k) == LowBits(n, j) + LowBits(DropBits(n, j), k)
    decreases j
  {
    if j > 0 {
      DropMore(n / 2, j - 1, k);
    } else {
      assert LowBits(n, 0) + LowBits(n, k) == LowBits(n, k);
    }
  }

  lemma {:induction false} LowBitsLength(n: nat, k: nat)
    ensures |LowBits(n, k)| == k
  {
    if k > 0 {
      LowBitsLength(n / 2, k - 1);
    }
  }

  lemma {:induction false} Gap(b: nat, p: nat, q: nat)
    requires p < q
    ensures b * q >= b * p + b
    decreases q
  {
    assert b * (q - 1) + b == b * q;
    if p < q - 1 {
      Gap(b, p, q - 1);
    }
  }

  /** Quotient and remainder are unique. */
  lemma Quotient(n: nat, b: nat, q: nat, d: nat)
    requires d < b && n == b * q + d
    ensures n / b == q && n % b == d
  {
    var p, r := n / b, n % b;
    assert b * p + r == b * q + d;
    if p < q {
      Gap(b, p, q);
    } else if q < p {
      Gap(b, q, p);
    }
  }

  /** Taking the lowest bit off first. */
  lemma HalfFirst(n: nat, b: nat)
    requires b > 0
    ensures n / (2 * b) == (n / 2) / b && n % (2 * b) == n % 2 + 2 * ((n / 2) % b)
  {
    var h, d := n / 2, n % 2;
    var q, r := h / b, h % b;
    assert h == b * q + r && n == 2 * h + d;
    assert (2 * b) * q == 2 * (b * q);
    Quotient(n, 2 * b, q, 2 * r + d);
  }

  function Pow2(n: nat): (r: nat)
    ensures r > 0
  {
    if n == 0 then 1 else 2 * Pow2(n - 1)
  }

  /** Low and dropped bits are remainder and quotient by a power of two. */
  lemma {:induction false} BitsAreRemainder(m: nat, n: nat, k: nat)
    ensures DropBits(n, k) == n / Pow2(k)
    ensures LowBits(m, k) == LowBits(n, k) <==> m % Pow2(k) == n % Pow2(k)
    decreases k
  {
    if k > 0 {
      BitsAreRemainder(m / 2, n / 2, k - 1);
      HalfFirst(m, Pow2(k - 1));
      HalfFirst(n, Pow2(k - 1));
      AppendEqual([m % 2], LowBits(m / 2, k - 1), [n % 2], LowBits(n / 2, k - 1));
    }
  }

  /** Five bits are a base-32 digit. */
  lemma FiveBits(m: nat, n: nat)
    ensures DropBits(n, 5) == n / 32
    ensures LowBits(m, 5) == LowBits(n, 5) <==> m % 32 == n % 32
  {
    BitsAreRemainder(m, n, 5);
  }

  /** Eight bits are a byte. */
  lemma EightBits(m: nat, n: nat)
    ensures DropBits(n, 8) == n / 256
    ensures LowBits(m, 8) == LowBits(n, 8) <==> m % 256 == n % 256
  {
    BitsAreRemainder(m, n, 8);
  }

  lemma AppendEqual<T>(a: seq<T>, b: seq<T>, c: seq<T>, d: seq<T>)
    requires |a| == |c|
    ensures a + b == c + d <==> a == c && b == d
  {
    assert (a + b)[..|a|] == a && (a + b)[|a|..] == b;
    assert (c + d)[..|c|] == c && (c + d)[|c|..] == d;
  }

  /** Numbers share their low digits exactly when they share the bits under them. */
  lemma {:induction false} DigitsAreBits(m: nat, n: nat, l: nat)
    ensures LowDigits(m, l) == LowDigits(n, l) <==> LowBits(m, 5 * l) == LowBits(n, 5 * l)
    decreases l
  {
    if l > 0 {
      DigitsAreBits(m / 32, n / 32, l - 1);
      FiveBits(m, n);
      FiveBits(n, m);
      DropMore(m, 5, 5 * (l - 1));
      DropMore(n, 5, 5 * (l - 1));
      LowBitsLength(m, 5);
      LowBitsLength(n, 5);
      AppendEqual(LowBits(m, 5), LowBits(m / 32, 5 * (l - 1)), LowBits(n, 5), LowBits(n / 32, 5 * (l - 1)));
      AppendEqual([m % 32], LowDigits(m / 32, l - 1), [n % 32], LowDigits(n / 32, l - 1));
    }
  }

  lemma {:induction false} BytesAreBits(m: nat, n: nat, l: nat)
    ensures LowBytes(m, l) == LowBytes(n, l) <==> LowBits(m, 8 * l) == LowBits(n, 8 * l)
    decreases l
  {
    if l > 0 {
      BytesAreBits(m / 256, n / 256, l - 1);
      EightBits(m, n);
      EightBits(n, m);
      DropMore(m, 8, 8 * (l - 1));
      DropMore(n, 8, 8 * (l - 1));
      LowBitsLength(m, 8);
      LowBitsLength(n, 8);
      AppendEqual(LowBits(m, 8), LowBits(m / 256, 8 * (l - 1)), LowBits(n, 8), LowBits(n / 256, 8 * (l - 1)));
      AppendEqual([m % 256], LowBytes(m / 256, l - 1), [n % 256], LowBytes(n / 256, l - 1));
    }
  }

  lemma {:induction false} BytesRoundTrip(bytes: Bytes)
    ensures LowBytes(OfBytes(bytes), |bytes|) == bytes && DropBits(OfBytes(bytes), 8 * |bytes|) == 0
    decreases |bytes|
  {
    if bytes != [] {
      var n, rest := OfBytes(bytes), bytes[1..];
      BytesRoundTrip(rest);
      Quotient(n, 256, OfBytes(rest), bytes[0]);
      EightBits(n, n);
      DropMore(n, 8, 8 * |rest|);
    }
  }

  /** Any number of at most l digits is the number of its l low digits. */
  lemma {:induction false} NumberOfLowDigits(n: nat, l: nat)
    requires DropBits(n, 5 * l) == 0
    ensures OfDigits(LowDigits(n, l)) == n
    decreases l
  {
    if l > 0 {
      FiveBits(n, n);
      DropMore(n, 5, 5 * (l - 1));
      NumberOfLowDigits(n / 32, l - 1);
      assert LowDigits(n, l)[1..] == LowDigits(n / 32, l - 1);
    }
  }

  /** The k low digits of a number given by digits, and the digit above them. */
  lemma {:induction false} DigitsOfNumber(digits: seq<Digit>, k: nat)
    requires k <= |digits|
    ensures LowDigits(OfDigits(digits), k) == digits[..k]
    ensures DropBits(OfDigits(digits), 5 * k) == OfDigits(digits[k..])
    decreases |digits|
  {
    if k > 0 {
      var n, rest := OfDigits(digits), digits[1..];
      DigitsOfNumber(rest, k - 1);
      Quotient(n, 32, OfDigits(rest), digits[0]);
      assert digits[..k] == [digits[0]] + rest[..k - 1] && digits[k..] == rest[k - 1..];
      FiveBits(n, n);
      DropMore(n, 5, 5 * (k - 1));
    } else {
      assert digits[0..] == digits;
    }
  }

  // ---------- names ----------

  function Reversed<T>(s: seq<T>): (r: seq<T>)
    ensures |r| == |s| && forall i :: 0 <= i < |s| ==> r[i] == s[|s| - 1 - i]
  {
    if s == [] then [] else Reversed(s[1..]) + [s[0]]
  }

  predicate Palindrome(s: seq<Digit>) {
    forall i :: 0 <= i < |s| ==> s[i] == s[|s| - 1 - i]
  }

  function NameDigits(key: Key): seq<Digit> {
    LowDigits(OfBytes(key), 52)
  }

  function Spell(digits: seq<Digit>): string {
    if digits == [] then "" else [ALPHABET[digits[0]]] + Spell(digits[1..])
  }

  /** The position of a letter in the alphabet, if it has one. */
  function Position(c: char): Option<Digit> {
    if 'a' <= c <= 'z' then Some((c - 'a') as int) else if '2' <= c <= '7' then Some((c - '2') as int + 26) else None
  }

  lemma LetterPosition(d: Digit)
    ensures Position(ALPHABET[d]) == Some(d)
  {
  }

  lemma PositionLetter(c: char)
    ensures Position(c).Some? ==> ALPHABET[Position(c).value] == c
  {
    if Position(c).Some? {
      LetterPosition(Position(c).value);
      SamePosition(ALPHABET[Position(c).value], c);
    }
  }

  lemma SamePosition(a: char, b: char)
    requires Position(a).Some? && Position(a) == Position(b)
    ensures a == b
  {
  }

  function Unspell(s: string): Option<seq<Digit>> {
    if s == [] then Some([])
    else
      var d, rest := Position(s[0]), Unspell(s[1..]);
      if d.None? || rest.None? then None else Some([d.value] + rest.value)
  }

  lemma {:induction false} UnspellSpell(digits: seq<Digit>)
    ensures |Spell(digits)| == |digits| && Unspell(Spell(digits)) == Some(digits)
    decreases |digits|
  {
    if digits != [] {
      UnspellSpell(digits[1..]);
      LetterPosition(digits[0]);
      assert Spell(digits)[1..] == Spell(digits[1..]);
      assert digits == [digits[0]] + digits[1..];
    }
  }

  function Name(key: Key): string {
    "e" + Spell(NameDigits(key))
  }

  lemma NameHoldsDigits(key: Key)
    ensures |Name(key)| == 53 && Name(key)[0] == 'e' && Unspell(Name(key)[1..]) == Some(NameDigits(key))
    ensures OfDigits(NameDigits(key)) == OfBytes(key)
    ensures NameDigits(key)[51] < 2
  {
    UnspellSpell(NameDigits(key));
    assert Name(key)[1..] == Spell(NameDigits(key));
    var n := OfBytes(key);
    BytesRoundTrip(key);
    DropMore(n, 256, 4);
    DropZero(4);
    NumberOfLowDigits(n, 52);
    TopDigit(n);
  }

  lemma {:induction false} DropZero(k: nat)
    ensures DropBits(0, k) == 0
  {
    if k > 0 {
      DropZero(k - 1);
    }
  }

  /** The last of 52 digits of a 256-bit number is one bit. */
  lemma TopDigit(n: nat)
    requires DropBits(n, 256) == 0 && OfDigits(LowDigits(n, 52)) == n
    ensures LowDigits(n, 52)[51] < 2
  {
    var digits := LowDigits(n, 52);
    DigitsOfNumber(digits, 51);
    assert digits[51..] == [digits[51]] && digits[51..][1..] == [];
    DropMore(n, 255, 1);
    assert DropBits(digits[51], 1) == DropBits(digits[51] / 2, 0);
  }

  /** Folding the digits from the last character gives the key back; so names are injective. */
  lemma NameIdentifiesKey(key: Key, other: Key)
    ensures LowBytes(OfDigits(NameDigits(key)), 32) == key
    ensures Name(key) == Name(other) ==> key == other
  {
    NameHoldsDigits(key);
    NameHoldsDigits(other);
    BytesRoundTrip(key);
    BytesRoundTrip(other);
  }

  // ---------- the reader ----------

  /** What the reader makes of a string: its digits folded from the first character. */
  function ReadName(san: string): Option<Key> {
    if |san| != 53 || san[0] != 'e' then None
    else
      var digits := Unspell(san[1..]);
      if digits.None? then None
      else
        var key: Key := LowBytes(OfDigits(Reversed(digits.value)), 32);
        Some(key)
  }

  lemma OneMoreBit(m: nat, n: nat, k: nat)
    ensures LowBits(m, k + 1) == LowBits(n, k + 1)
      <==> LowBits(m, k) == LowBits(n, k) && DropBits(m, k) % 2 == DropBits(n, k) % 2
  {
    DropMore(m, k, 1);
    DropMore(n, k, 1);
    LowBitsLength(m, k);
    LowBitsLength(n, k);
    OneBit(DropBits(m, k));
    OneBit(DropBits(n, k));
    AppendEqual(LowBits(m, k), LowBits(DropBits(m, k), 1), LowBits(n, k), LowBits(DropBits(n, k), 1));
  }

  lemma OneBit(n: nat)
    ensures LowBits(n, 1) == [n % 2]
  {
    assert LowBits(n / 2, 0) == [];
  }

  /** Only the lowest bit of a 52nd digit is among the 256 bits a key keeps. */
  lemma KeptBits(a: seq<Digit>, b: seq<Digit>)
    requires |a| == |b| == 52
    ensures LowBytes(OfDigits(a), 32) == LowBytes(OfDigits(b), 32) <==> a[..51] == b[..51] && a[51] % 2 == b[51] % 2
  {
    BytesAreBits(OfDigits(a), OfDigits(b), 32);
    OneMoreBit(OfDigits(a), OfDigits(b), 255);
    DigitsAreBits(OfDigits(a), OfDigits(b), 51);
    LastDigit(a);
    LastDigit(b);
  }

  lemma LastDigit(a: seq<Digit>)
    requires |a| == 52
    ensures LowDigits(OfDigits(a), 51) == a[..51] && DropBits(OfDigits(a), 255) == a[51]
  {
    DigitsOfNumber(a, 51);
    assert a[51..] == [a[51]] && a[51..][1..] == [];
  }

  lemma ReadsReversed(key: Key)
    ensures ReadName(Name(key)).Some? && ReadName(Name(key)).value == LowBytes(OfDigits(Reversed(NameDigits(key))), 32)
  {
    NameHoldsDigits(key);
  }

  /** With a one-bit top digit, the digits agree with the reversed ones only in a palindrome. */
  lemma ReversedAgrees(digits: seq<Digit>)
    requires |digits| == 52 && digits[51] < 2
    ensures Reversed(digits)[..51] == digits[..51] && Reversed(digits)[51] % 2 == digits[51] % 2 <==> Palindrome(digits)
  {
    var back := Reversed(digits);
    if Palindrome(digits) {
      assert back == digits;
    }
    if back[..51] == digits[..51] {
      assert forall i :: 0 <= i < 51 ==> back[i] == back[..51][i] == digits[..51][i] == digits[i];
      forall i | 0 <= i < 52 ensures digits[i] == digits[51 - i] {
        assert back[0] == digits[51] && back[0] == digits[0];
      }
    }
  }

  /** The reader recovers a key from its name exactly when the digits read the same backwards. */
  lemma ReaderRecoversPalindromes(key: Key)
    ensures ReadName(Name(key)).Some?
    ensures ReadName(Name(key)) == Some(key) <==> Palindrome(NameDigits(key))
  {
    var digits := NameDigits(key);
    NameHoldsDigits(key);
    NameIdentifiesKey(key, key);
    ReadsReversed(key);
    KeptBits(Reversed(digits), digits);
    ReversedAgrees(digits);
  }

  /** The key with only its lowest bit set is not recovered. */
  lemma ReaderMissesOne(key: Key)
    requires key[0] == 1 && forall i :: 1 <= i < 32 ==> key[i] == 0
    ensures ReadName(Name(key)) != Some(key)
  {
    ReaderRecoversPalindromes(key);
    ZeroBytes(key[1..]);
    DigitsOfOne(52);
  }

  lemma DigitsOfOne(l: nat)
    requires l > 1
    ensures !Palindrome(LowDigits(1, l))
  {
    var digits := LowDigits(1, l);
    ZeroDigits(l - 1);
    assert digits == [1] + LowDigits(0, l - 1);
    assert digits[0] == 1 && digits[l - 1] == 0;
  }

  lemma {:induction false} ZeroBytes(bytes: Bytes)
    requires forall i :: 0 <= i < |bytes| ==> bytes[i] == 0
    ensures OfBytes(bytes) == 0
  {
    if bytes != [] {
      ZeroBytes(bytes[1..]);
    }
  }

  lemma {:induction false} ZeroDigits(l: nat)
    ensures forall i :: 0 <= i < l ==> LowDigits(0, l)[i] == 0
  {
    if l > 0 {
      ZeroDigits(l - 1);
    }
  }

  // ---------- the loops ----------

  /** Reads a key from its most significant byte down. */
  method ReadKey(key: Key) returns (n: nat)
    ensures n == OfBytes(key)
  {
    n := 0;
    var i := 32;
    while i > 0
      invariant 0 <= i <= 32
      invariant n == OfBytes(key[i..])
    {
      i := i - 1;
      assert key[i..][1..] == key[i + 1..];
      n := 256 * n + key[i];
    }
    assert key[0..] == key;
  }

  method ToSAN(key: Key) returns (san: string)
    ensures san == Name(key)
  {
    var n := ReadKey(key);
    san := "e" + Spell(LowDigits(n, 52));
  }

  /** Minimal big-endian bytes of a number. */
  function BigBytes(n: nat): Bytes {
    if n == 0 then [] else BigBytes(n / 256) + [n % 256]
  }

  lemma {:induction false} BigBytesReversed(n: nat, l: nat, i: nat)
    requires i < l
    ensures LowBytes(n, l)[i] == if i < |BigBytes(n)| then BigBytes(n)[|BigBytes(n)| - 1 - i] else 0
    decreases l
  {
    if i > 0 {
      BigBytesReversed(n / 256, l - 1, i - 1);
    }
  }

  lemma {:induction false} UnspellPrefix(s: string, i: nat)
    requires i < |s|
    ensures Unspell(s[..i + 1]) ==
      if Unspell(s[..i]).None? || Position(s[i]).None? then None else Some(Unspell(s[..i]).value + [Position(s[i]).value])
    decreases |s|
  {
    if i == 0 {
      var one := s[..1];
      assert one[0] == s[0] && |one[1..]| == 0;
      var none := Unspell(one[1..]).value;
      assert none == [] && Unspell(s[..0]).value == [];
      if Position(s[0]).Some? {
        assert [Position(s[0]).value] + none == none + [Position(s[0]).value];
      }
    } else {
      var t := s[1..];
      UnspellPrefix(t, i - 1);
      assert s[..i + 1][1..] == t[..i] && s[..i][1..] == t[..i - 1];
      var first, rest, last := Position(s[0]), Unspell(t[..i - 1]), Position(s[i]);
      if first.Some? && rest.Some? && last.Some? {
        assert [first.value] + (rest.value + [last.value]) == [first.value] + rest.value + [last.value];
      }
    }
  }

  lemma {:induction false} UnspellFails(s: string, i: nat)
    requires i <= |s| && Unspell(s[..i]).None?
    ensures Unspell(s).None?
    decreases |s| - i
  {
    if i == |s| {
      assert s[..i] == s;
    } else {
      UnspellPrefix(s, i);
      UnspellFails(s, i + 1);
    }
  }

  /** Looks a letter up in the alphabet. */
  method FindLetter(c: char) returns (d: Option<Digit>)
    ensures d == Position(c)
  {
    PositionLetter(c);
    for j := 0 to 32
      invariant forall k :: 0 <= k < j ==> ALPHABET[k] != c
    {
      if ALPHABET[j] == c {
        LetterPosition(j);
        return Some(j);
      }
    }
    return None;
  }

  /** Folds the letters from the first one; an unknown letter is an error. */
  method FoldLetters(letters: string) returns (n: nat, ok: bool)
    ensures ok == Unspell(letters).Some? && (ok ==> n == OfDigits(Reversed(Unspell(letters).value)))
  {
    ghost var digits: seq<Digit> := [];
    n, ok := 0, true;
    for i := 0 to |letters|
      invariant Unspell(letters[..i]) == Some(digits) && n == OfDigits(Reversed(digits))
    {
      var d := FindLetter(letters[i]);
      UnspellPrefix(letters, i);
      if d.None? {
        UnspellFails(letters, i + 1);
        return 0, false;
      }
      ReversedSnoc(digits, d.value);
      digits := digits + [d.value];
      n := 32 * n + d.value;
    }
    assert letters[..|letters|] == letters;
  }

  lemma ReversedSnoc(digits: seq<Digit>, d: Digit)
    ensures OfDigits(Reversed(digits + [d])) == d + 32 * OfDigits(Reversed(digits))
  {
    assert Reversed(digits + [d]) == [d] + Reversed(digits);
  }

  /** Copies the low bytes of a number, least significant first, into a zeroed key. */
  method KeyBytes(n: nat) returns (key: Key)
    ensures key == LowBytes(n, 32)
  {
    var big := BigBytes(n);
    var result: Bytes := Zeros(32);
    for i := 0 to if |big| > 32 then 32 else |big|
      invariant |result| == 32
      invariant forall j :: 0 <= j < 32 ==> result[j] == if j < i then big[|big| - 1 - j] else 0
    {
      result := result[i := big[|big| - 1 - i]];
    }
    forall j | 0 <= j < 32 ensures result[j] == LowBytes(n, 32)[j] {
      BigBytesReversed(n, 32, j);
    }
    return result;
  }

  method FromSAN(san: string) returns (key: Option<Key>)
    ensures key == ReadName(san)
  {
    if |san| != 53 || san[0] != 'e' {
      return None;
    }
    var n, ok := FoldLetters(san[1..]);
    if !ok {
      return None;
    }
    var read := KeyBytes(n);
    return Some(read);
  }

  predicate IsLetter(c: char) {
    'a' <= c <= 'z' || '2' <= c <= '7'
  }

  lemma {:induction false} UnspellExactly(s: string)
    ensures Unspell(s).Some? <==> forall i :: 0 <= i < |s| ==> IsLetter(s[i])
  {
    if s != [] {
      UnspellExactly(s[1..]);
      assert forall i :: 1 <= i < |s| ==> s[i] == s[1..][i - 1];
      if Unspell(s[1..]).None? {
        var i :| 0 <= i < |s[1..]| && !IsLetter(s[1..][i]);
        assert !IsLetter(s[i + 1]);
      }
    }
  }

  /** The reader takes exactly the strings of an e and 52 letters or digits from 2 to 7. */
  lemma ReaderAccepts(san: string)
    ensures ReadName(san).Some? <==> |san| == 53 && san[0] == 'e' && forall i :: 1 <= i < 53 ==> IsLetter(san[i])
  {
    if |san| == 53 {
      UnspellExactly(san[1..]);
      assert forall i :: 1 <= i < 53 ==> san[i] == san[1..][i - 1];
      assert forall i :: 0 <= i < 52 ==> san[1..][i] == san[i + 1];
    }
  }

  lemma {:induction false} SpelledAt(digits: seq<Digit>, i: nat)
    requires i < |digits|
    ensures |Spell(digits)| == |digits|
    ensures Spell(digits)[i] == ALPHABET[digits[i]]
    decreases |digits|
  {
    UnspellSpell(digits);
    if i > 0 {
      SpelledAt(digits[1..], i - 1);
    }
  }

  /** The letters of a name: an e, then a to z for the digits 0 to 25 and 2 to 7 for the others. */
  lemma NameLetters(key: Key, i: nat)
    requires i < 52
    ensures |Name(key)| == 53 && Name(key)[0] == 'e' && |NameDigits(key)| == 52
    ensures var d := NameDigits(key)[i];
      Name(key)[1 + i] == if d < 26 then 'a' + d as char else '2' + (d - 26) as char
  {
    SpelledAt(NameDigits(key), i);
    LetterIs(NameDigits(key)[i]);
  }

  lemma LetterIs(d: Digit)
    ensures ALPHABET[d] == if d < 26 then 'a' + d as char else '2' + (d - 26) as char
  {
  }
}
