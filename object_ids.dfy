/**
 * Object ids as the store reads id strings. A string names a record through
 * the 12 bytes it denotes: 24 hexadecimal digits in either case, two digits
 * per byte, or 12 characters taken as their UTF-8 bytes. A record is kept
 * under the lower-case hexadecimal spelling of its bytes.
 */
module ObjectIds {
  type Id = string

  predicate IsHexDigit(c: char) {
    '0' <= c <= '9' || 'a' <= c <= 'f' || 'A' <= c <= 'F'
  }

  predicate IsLowerHexDigit(c: char) {
    '0' <= c <= '9' || 'a' <= c <= 'f'
  }

  predicate AllHex(s: string) {
    s == [] || (IsHexDigit(s[0]) && AllHex(s[1..]))
  }

  predicate AllLowerHex(s: string) {
    s == [] || (IsLowerHexDigit(s[0]) && AllLowerHex(s[1..]))
  }

  /** Every character is encoded by a single UTF-8 byte. */
  predicate AllAscii(s: string) {
    s == [] || (s[0] as int < 128 && AllAscii(s[1..]))
  }

  predicate AllBytes(bs: seq<int>) {
    bs == [] || (0 <= bs[0] < 256 && AllBytes(bs[1..]))
  }

  function HexValue(c: char): (v: int)
    requires IsHexDigit(c)
    ensures 0 <= v < 16
  {
    if '0' <= c <= '9' then c as int - '0' as int
    else if 'a' <= c <= 'f' then c as int - 'a' as int + 10
    else c as int - 'A' as int + 10
  }

  /** The lower-case digit of a value below 16; reading it back gives the value. */
  function HexChar(v: int): (c: char)
    requires 0 <= v < 16
    ensures IsLowerHexDigit(c) && HexValue(c) == v
  {
    if v < 10 then ('0' as int + v) as char else ('a' as int + v - 10) as char
  }

  /** The bytes spelt by pairs of hexadecimal digits, high digit first. */
  function PairValues(s: string): (bs: seq<int>)
    requires AllHex(s) && |s| % 2 == 0
    ensures |bs| == |s| / 2 && AllBytes(bs)
  {
    if s == [] then []
    else
      assert AllHex(s[1..]) && |s[1..]| > 0 && s[1..][0] == s[1];
      assert s[1..][1..] == s[2..];
      var bs := [16 * HexValue(s[0]) + HexValue(s[1])] + PairValues(s[2..]);
      assert bs[1..] == PairValues(s[2..]);
      bs
  }

  /** The UTF-8 bytes of a string of one-byte characters. */
  function Codes(s: string): (bs: seq<int>)
    requires AllAscii(s)
    ensures |bs| == |s| && AllBytes(bs)
  {
    if s == [] then []
    else
      var bs := [s[0] as int] + Codes(s[1..]);
      assert bs[1..] == Codes(s[1..]);
      bs
  }

  /** The lower-case hexadecimal spelling of a byte sequence. */
  function HexOf(bs: seq<int>): (s: string)
    requires AllBytes(bs)
    ensures |s| == 2 * |bs| && AllLowerHex(s)
  {
    if bs == [] then []
    else
      var s := [HexChar(bs[0] / 16), HexChar(bs[0] % 16)] + HexOf(bs[1..]);
      assert s[1..][1..] == HexOf(bs[1..]);
      s
  }

  /**
   * The length JavaScript reports for a string: the number of its UTF-16 code
   * units, two for a character above U+FFFF and one for any other.
   */
  function Utf16Length(s: string): (n: nat)
    ensures |s| <= n <= 2 * |s|
    ensures n == |s| <==> forall i :: 0 <= i < |s| ==> s[i] as int < 0x10000
  {
    if s == [] then 0
    else
      assert forall i :: 1 <= i < |s| ==> s[1..][i - 1] == s[i];
      (if s[0] as int < 0x10000 then 1 else 2) + Utf16Length(s[1..])
  }

  /**
   * The store's validity check of an id string: 24 hexadecimal digits, or any
   * string whose JavaScript length is 12.
   */
  predicate IsValidObjectId(id: Id) {
    (|id| == 24 && AllHex(id)) || Utf16Length(id) == 12
  }

  /** The strings the store can turn into an object id; any other string makes a query fail. */
  predicate Castable(id: Id) {
    (|id| == 24 && AllHex(id)) || (|id| == 12 && AllAscii(id))
  }

  /** The 12 bytes an id string denotes. */
  function Bytes(id: Id): (bs: seq<int>)
    requires Castable(id)
    ensures |bs| == 12 && AllBytes(bs)
  {
    if |id| == 24 then PairValues(id) else Codes(id)
  }

  /** The form under which the store keeps a record: 24 lower-case hexadecimal digits. */
  predicate IsKey(k: Id) {
    |k| == 24 && AllLowerHex(k)
  }

  /** The key of the record an id string names. */
  function Key(id: Id): (k: Id)
    requires Castable(id)
    ensures IsKey(k)
  {
    HexOf(Bytes(id))
  }

  /** A string of one-byte characters has one UTF-16 code unit per character. */
  lemma {:induction false} AsciiLength(s: string)
    requires AllAscii(s)
    ensures Utf16Length(s) == |s|
  {
    if s != [] {
      AsciiLength(s[1..]);
    }
  }

  /** Every id the store can cast passes its validity check. */
  lemma CastableIsValid(id: Id)
    requires Castable(id)
    ensures IsValidObjectId(id)
  {
    if |id| == 12 && AllAscii(id) {
      AsciiLength(id);
    }
  }

  /** Eleven letters and an emoji have JavaScript length 13, so the check refuses them. */
  lemma EmojiIdExample()
    ensures !IsValidObjectId("aaaaaaaaaaa\U{1F600}")
  {
  }

  /** Eleven letters and an accented letter pass the check, but the cast needs 13 bytes and fails. */
  lemma AccentedIdExample()
    ensures IsValidObjectId("aaaaaaaaaaa\U{E9}") && !Castable("aaaaaaaaaaa\U{E9}")
  {
  }

  lemma {:induction false} LowerHexIsHex(s: string)
    requires AllLowerHex(s)
    ensures AllHex(s)
  {
    if s != [] {
      LowerHexIsHex(s[1..]);
    }
  }

  /** Spelling bytes in hexadecimal and reading the pairs back gives the bytes. */
  lemma {:induction false} HexOfRoundTrip(bs: seq<int>)
    requires AllBytes(bs)
    ensures AllHex(HexOf(bs)) && PairValues(HexOf(bs)) == bs
  {
    LowerHexIsHex(HexOf(bs));
    if bs != [] {
      HexOfRoundTrip(bs[1..]);
      var s := HexOf(bs);
      assert s[2..] == HexOf(bs[1..]);
      assert 16 * (bs[0] / 16) + bs[0] % 16 == bs[0];
      assert bs == [bs[0]] + bs[1..];
    }
  }

  /** A hexadecimal digit in lower case. */
  function LowerDigit(c: char): (l: char)
    requires IsHexDigit(c)
    ensures IsLowerHexDigit(l) && HexValue(l) == HexValue(c)
  {
    if 'A' <= c <= 'F' then (c as int - 'A' as int + 'a' as int) as char else c
  }

  function LowerAll(s: string): (r: string)
    requires AllHex(s)
    ensures |r| == |s|
  {
    if s == [] then [] else [LowerDigit(s[0])] + LowerAll(s[1..])
  }

  /** One byte spelt by two digits reads back as those digits in lower case. */
  lemma PairDigits(c0: char, c1: char)
    requires IsHexDigit(c0) && IsHexDigit(c1)
    ensures var v := 16 * HexValue(c0) + HexValue(c1);
            0 <= v < 256 && HexChar(v / 16) == LowerDigit(c0) && HexChar(v % 16) == LowerDigit(c1)
  {
    var v := 16 * HexValue(c0) + HexValue(c1);
    assert v / 16 == HexValue(c0) && v % 16 == HexValue(c1);
  }

  /** Reading hexadecimal pairs as bytes and spelling them again lower-cases the string. */
  lemma {:induction false} HexOfPairValues(s: string)
    requires AllHex(s) && |s| % 2 == 0
    ensures HexOf(PairValues(s)) == LowerAll(s)
  {
    if s != [] {
      assert AllHex(s[1..]) && s[1..][0] == s[1];
      var rest := s[2..];
      assert s[1..][1..] == rest;
      HexOfPairValues(rest);
      PairDigits(s[0], s[1]);
      var v := 16 * HexValue(s[0]) + HexValue(s[1]);
      var p := PairValues(s);
      assert p == [v] + PairValues(rest);
      assert p[1..] == PairValues(rest);
      assert HexOf(p) == [LowerDigit(s[0]), LowerDigit(s[1])] + LowerAll(rest);
      assert LowerAll(s[1..]) == [LowerDigit(s[1])] + LowerAll(rest);
    }
  }

  /** Lower-casing a lower-case hexadecimal string changes nothing. */
  lemma {:induction false} LowerAllOfLower(s: string)
    requires AllLowerHex(s)
    ensures AllHex(s) && LowerAll(s) == s
  {
    LowerHexIsHex(s);
    if s != [] {
      LowerAllOfLower(s[1..]);
    }
  }

  /** The key of a 24-digit id is that id in lower case: case does not matter. */
  lemma KeyOfHexId(id: Id)
    requires |id| == 24 && AllHex(id)
    ensures Castable(id) && Key(id) == LowerAll(id)
  {
    HexOfPairValues(id);
  }

  /** A key names itself. */
  lemma KeyOfKey(k: Id)
    requires IsKey(k)
    ensures Castable(k) && Key(k) == k
  {
    LowerAllOfLower(k);
    KeyOfHexId(k);
  }

  /** Two id strings name the same record exactly when they denote the same bytes. */
  lemma SameRecord(a: Id, b: Id)
    requires Castable(a) && Castable(b)
    ensures Key(a) == Key(b) <==> Bytes(a) == Bytes(b)
  {
    HexOfRoundTrip(Bytes(a));
    HexOfRoundTrip(Bytes(b));
  }
}
