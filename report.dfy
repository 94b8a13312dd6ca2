/**
 * The text the reader thread hands to `onData` for one read: every byte
 * read, as Java's `String.valueOf(byte)` renders it (signed decimal), each
 * followed by one space. `Parse` is the inverse, used to state that the
 * text loses nothing.
 */
module Report {
  import opened Types

  function DigitChar(d: nat): (c: char)
    requires d < 10
    ensures '0' <= c <= '9'
  {
    (d + '0' as int) as char
  }

  predicate IsDigit(c: char)
  {
    '0' <= c <= '9'
  }

  /** Decimal digits of `n`, most significant first. */
  function NatDigits(n: nat): (s: string)
    ensures |s| >= 1
    ensures forall i :: 0 <= i < |s| ==> IsDigit(s[i])
    decreases n
  {
    if n < 10 then [DigitChar(n)] else NatDigits(n / 10) + [DigitChar(n % 10)]
  }

  /** `String.valueOf(b)` for a byte `b`: a minus sign for negative values, then the digits. */
  function ByteString(b: Byte): (s: string)
    ensures 1 <= |s| <= 4
    ensures ' ' !in s
  {
    var m: int := b;
    NatDigitsLength(if m < 0 then -m else m);
    if m < 0 then "-" + NatDigits(-m) else NatDigits(m)
  }

  /** Each element of `bs` rendered by `field` and followed by one space. */
  function Join(field: Byte -> string, bs: seq<Byte>): string
  {
    if bs == [] then "" else field(bs[0]) + " " + Join(field, bs[1..])
  }

  /** The string built by the reader's inner loop for the bytes `bs`. */
  function Format(bs: seq<Byte>): string
  {
    Join(ByteString, bs)
  }

  lemma {:induction false} NatDigitsLength(n: nat)
    ensures n < 10 ==> |NatDigits(n)| == 1
    ensures n < 100 ==> |NatDigits(n)| <= 2
    ensures n < 1000 ==> |NatDigits(n)| <= 3
    decreases n
  {
    if n >= 10 {
      NatDigitsLength(n / 10);
    }
  }

  lemma {:induction false} JoinAppend(field: Byte -> string, bs: seq<Byte>, b: Byte)
    ensures Join(field, bs + [b]) == Join(field, bs) + field(b) + " "
  {
    if bs == [] {
      assert bs + [b] == [b];
    } else {
      var head, tail := field(bs[0]) + " ", bs[1..];
      assert bs + [b] == [bs[0]] + (tail + [b]);
      assert Join(field, bs + [b]) == head + Join(field, tail + [b]);
      JoinAppend(field, tail, b);
    }
  }

  /** Appending one byte appends its field: the form the reader's loop builds the text in. */
  lemma FormatAppend(bs: seq<Byte>, b: Byte)
    ensures Format(bs + [b]) == Format(bs) + ByteString(b) + " "
  {
    JoinAppend(ByteString, bs, b);
  }

  // ---- the inverse of Format ----

  /** Value of a string of decimal digits. */
  function DigitsValue(s: string): nat
  {
    if s == [] then 0
    else DigitsValue(s[..|s| - 1]) * 10 + (if IsDigit(s[|s| - 1]) then s[|s| - 1] as int - '0' as int else 0)
  }

  function ParseNat(s: string): Option<nat>
  {
    if s != [] && forall i :: 0 <= i < |s| ==> IsDigit(s[i]) then Some(DigitsValue(s)) else None
  }

  function ParseInt(s: string): Option<int>
  {
    if |s| > 0 && s[0] == '-' then
      match ParseNat(s[1..])
      case Some(n) => Some(-(n as int))
      case None => None
    else
      match ParseNat(s)
      case Some(n) => Some(n)
      case None => None
  }

  /** Length of the longest prefix of `s` without a space. */
  function FieldEnd(s: string): (k: nat)
    ensures k <= |s|
    ensures forall i :: 0 <= i < k ==> s[i] != ' '
    ensures k < |s| ==> s[k] == ' '
  {
    if s == [] || s[0] == ' ' then 0 else 1 + FieldEnd(s[1..])
  }

  /** Reads back a sequence of space-terminated decimal fields; `None` if `s` is not of that form. */
  function Parse(s: string): Option<seq<int>>
    decreases |s|
  {
    if s == [] then Some([])
    else
      var k := FieldEnd(s);
      if k == |s| then None
      else
        match (ParseInt(s[..k]), Parse(s[k + 1..]))
        case (Some(v), Some(rest)) => Some([v] + rest)
        case _ => None
  }

  lemma {:induction false} ParseNatDigits(n: nat)
    ensures ParseNat(NatDigits(n)) == Some(n)
    decreases n
  {
    var s := NatDigits(n);
    if n < 10 {
      assert s[..|s| - 1] == [];
    } else {
      ParseNatDigits(n / 10);
      assert s[..|s| - 1] == NatDigits(n / 10);
      assert DigitsValue(s) == (n / 10) * 10 + n % 10;
    }
  }

  lemma ParseByteString(b: Byte)
    ensures ParseInt(ByteString(b)) == Some(b)
  {
    var m: int := b;
    if m < 0 {
      ParseNatDigits(-m);
      assert ByteString(b)[1..] == NatDigits(-m);
    } else {
      ParseNatDigits(b);
    }
  }

  /** The report of a read can be read back to exactly the bytes read. */
  lemma {:induction false} ParseFormat(bs: seq<Byte>)
    ensures Parse(Format(bs)) == Some(bs)
  {
    if bs != [] {
      var field := ByteString(bs[0]);
      var s := Format(bs);
      assert s == field + " " + Format(bs[1..]);
      var k := FieldEnd(s);
      assert s[|field|] == ' ';
      assert forall i :: 0 <= i < |field| ==> s[i] == field[i];
      assert k == |field|;
      assert s[..k] == field;
      assert s[k + 1..] == Format(bs[1..]);
      ParseByteString(bs[0]);
      ParseFormat(bs[1..]);
      assert [bs[0]] + bs[1..] == bs;
    }
  }
}
