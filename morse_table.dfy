/** The Morse code table of Morse.cpp (`ctob`) and the bit-pattern convention it uses.

    A pattern is a byte read from bit 0 upward: each bit below the highest set bit is
    one element (0 = dit, 1 = dah) and the highest set bit is an end marker, not an
    element. The pattern 1 (the marker alone) is reserved for the word space.
 */
module MorseTable {

  /** A C `uint8_t`. */
  type Byte = x: int | 0 <= x < 256

  datatype Option<T> = None | Some(value: T)

  datatype Element = Dit | Dah

  /** Pattern returned for a byte that has no entry of its own: "......-". */
  const NotFound: Byte := 0xC0

  /** Pattern of the word space: the end marker alone. */
  const WordSpace: Byte := 1

  const Space: Byte := 32    // ' '
  const Tilde: Byte := 126   // '~', consumed by the sender without a tone
  const Backtick: Byte := 96 // '`', toggles digraph mode in the sender

  /** `c >> k` for a non-negative integer. */
  function Shr(c: nat, k: nat): nat
  {
    if k == 0 then c else Shr(c / 2, k - 1)
  }

  /** Arduino's `bitRead(c, k)`. */
  function BitRead(c: nat, k: nat): nat
  {
    Shr(c, k) % 2
  }

  /** The elements a pattern stands for, first element first. */
  function Elements(code: nat): seq<Element>
    requires code >= 1
  {
    if code == 1 then [] else [if code % 2 == 1 then Dah else Dit] + Elements(code / 2)
  }

  /** The pattern whose elements are `es`: the inverse of Elements. */
  function Encode(es: seq<Element>): (code: nat)
    ensures code >= 1
  {
    if es == [] then 1 else (if es[0] == Dah then 1 else 0) + 2 * Encode(es[1..])
  }

  function Pow2(k: nat): (p: nat)
    ensures p >= 1
  {
    if k == 0 then 1 else 2 * Pow2(k - 1)
  }

  /** The elements of a sign written with '.' and '-'. */
  function Parse(sign: string): (es: seq<Element>)
    ensures |es| == |sign|
  {
    if sign == [] then [] else [if sign[0] == '-' then Dah else Dit] + Parse(sign[1..])
  }

  /** The pattern of a sign written with '.' and '-', computed directly from its text. */
  function SignCode(sign: string): (code: nat)
    ensures code >= 1
  {
    if sign == [] then 1 else (if sign[0] == '-' then 1 else 0) + 2 * SignCode(sign[1..])
  }

  /** `ctob` (Morse.cpp:208-272): the pattern sent for an (upper-case) ASCII byte. */
  function Ctob(c: Byte): (r: Byte)
    ensures r >= 1
    ensures r == WordSpace <==> c == Space
  {
    match c
    case 32 => 0x01     // ' '
    case 33 => 0x75     // '!'
    case 34 => 0x52     // '"'
    case 36 => 0xC8     // '$'
    case 38 => 0x22     // '&'
    case 39 => 0x5E     // '\''
    case 40 => 0x2D     // '('
    case 41 => 0x6D     // ')'
    case 43 => 0x2A     // '+'
    case 44 => 0x73     // ','
    case 45 => 0x61     // '-'
    case 46 => 0x6A     // '.'
    case 47 => 0x29     // '/'
    case 48 => 0x3F     // '0'
    case 49 => 0x3E     // '1'
    case 50 => 0x3C     // '2'
    case 51 => 0x38     // '3'
    case 52 => 0x30     // '4'
    case 53 => 0x20     // '5'
    case 54 => 0x21     // '6'
    case 55 => 0x23     // '7'
    case 56 => 0x27     // '8'
    case 57 => 0x2F     // '9'
    case 58 => 0x47     // ':'
    case 59 => 0x55     // ';'
    case 61 => 0x31     // '='
    case 63 => 0x4C     // '?'
    case 64 => 0x56     // '@'
    case 65 => 0x06     // 'A'
    case 66 => 0x11     // 'B'
    case 67 => 0x15     // 'C'
    case 68 => 0x09     // 'D'
    case 69 => 0x02     // 'E'
    case 70 => 0x14     // 'F'
    case 71 => 0x0B     // 'G'
    case 72 => 0x10     // 'H'
    case 73 => 0x04     // 'I'
    case 74 => 0x1E     // 'J'
    case 75 => 0x0D     // 'K'
    case 76 => 0x12     // 'L'
    case 77 => 0x07     // 'M'
    case 78 => 0x05     // 'N'
    case 79 => 0x0F     // 'O'
    case 80 => 0x16     // 'P'
    case 81 => 0x1B     // 'Q'
    case 82 => 0x0A     // 'R'
    case 83 => 0x08     // 'S'
    case 84 => 0x03     // 'T'
    case 85 => 0x0C     // 'U'
    case 86 => 0x18     // 'V'
    case 87 => 0x0E     // 'W'
    case 88 => 0x19     // 'X'
    case 89 => 0x1D     // 'Y'
    case 90 => 0x13     // 'Z'
    case 95 => 0x6C     // '_'
    case _ => NotFound
  }

  /** The reference code chart, written as operators write it: the International Morse
      characters of Recommendation ITU-R M.1677-1 (Part I) plus the usual amateur
      signs for '!', '$', '&', ';' and '_'. Characters without a sign give None. */
  function Canonical(c: Byte): Option<string>
  {
    match c
    case 33 => Some("-.-.--")   // '!'
    case 34 => Some(".-..-.")   // '"'
    case 36 => Some("...-..-")  // '$'
    case 38 => Some(".-...")    // '&'
    case 39 => Some(".----.")   // '\''
    case 40 => Some("-.--.")    // '('
    case 41 => Some("-.--.-")   // ')'
    case 43 => Some(".-.-.")    // '+'
    case 44 => Some("--..--")   // ','
    case 45 => Some("-....-")   // '-'
    case 46 => Some(".-.-.-")   // '.'
    case 47 => Some("-..-.")    // '/'
    case 48 => Some("-----")    // '0'
    case 49 => Some(".----")    // '1'
    case 50 => Some("..---")    // '2'
    case 51 => Some("...--")    // '3'
    case 52 => Some("....-")    // '4'
    case 53 => Some(".....")    // '5'
    case 54 => Some("-....")    // '6'
    case 55 => Some("--...")    // '7'
    case 56 => Some("---..")    // '8'
    case 57 => Some("----.")    // '9'
    case 58 => Some("---...")   // ':'
    case 59 => Some("-.-.-.")   // ';'
    case 61 => Some("-...-")    // '='
    case 63 => Some("..--..")   // '?'
    case 64 => Some(".--.-.")   // '@'
    case 65 => Some(".-")       // 'A'
    case 66 => Some("-...")     // 'B'
    case 67 => Some("-.-.")     // 'C'
    case 68 => Some("-..")      // 'D'
    case 69 => Some(".")        // 'E'
    case 70 => Some("..-.")     // 'F'
    case 71 => Some("--.")      // 'G'
    case 72 => Some("....")     // 'H'
    case 73 => Some("..")       // 'I'
    case 74 => Some(".---")     // 'J'
    case 75 => Some("-.-")      // 'K'
    case 76 => Some(".-..")     // 'L'
    case 77 => Some("--")       // 'M'
    case 78 => Some("-.")       // 'N'
    case 79 => Some("---")      // 'O'
    case 80 => Some(".--.")     // 'P'
    case 81 => Some("--.-")     // 'Q'
    case 82 => Some(".-.")      // 'R'
    case 83 => Some("...")      // 'S'
    case 84 => Some("-")        // 'T'
    case 85 => Some("..-")      // 'U'
    case 86 => Some("...-")     // 'V'
    case 87 => Some(".--")      // 'W'
    case 88 => Some("-..-")     // 'X'
    case 89 => Some("-.--")     // 'Y'
    case 90 => Some("--..")     // 'Z'
    case 95 => Some("..--.-")   // '_'
    case _ => None
  }

  /** ASCII upper-casing of one byte, as `String::toUpperCase` does it. */
  function ToUpper(c: Byte): Byte
  {
    if 97 <= c <= 122 then c - 32 else c
  }

  function UpperCase(s: seq<Byte>): (r: seq<Byte>)
    ensures |r| == |s|
    ensures forall i :: 0 <= i < |s| ==> r[i] == ToUpper(s[i])
  {
    if s == [] then [] else [ToUpper(s[0])] + UpperCase(s[1..])
  }

  /** Encoding a sequence of elements and reading it back gives the same elements. */
  lemma {:induction false} ElementsOfEncode(es: seq<Element>)
    ensures Elements(Encode(es)) == es
  {
    if es != [] {
      ElementsOfEncode(es[1..]);
      assert Encode(es) / 2 == Encode(es[1..]);
    }
  }

  /** Every pattern is the encoding of its own elements: the marker convention loses
      nothing. */
  lemma {:induction false} EncodeOfElements(code: nat)
    requires code >= 1
    ensures Encode(Elements(code)) == code
  {
    if code != 1 {
      EncodeOfElements(code / 2);
      assert Elements(code)[1..] == Elements(code / 2);
    }
  }

  /** The end marker is the highest set bit: a pattern with k elements lies in
      [2^k, 2^(k+1)). */
  lemma {:induction false} EncodeRange(es: seq<Element>)
    ensures Pow2(|es|) <= Encode(es) < Pow2(|es| + 1)
  {
    if es != [] {
      EncodeRange(es[1..]);
    }
  }

  lemma {:induction false} Pow2Monotone(j: nat, k: nat)
    requires j <= k
    ensures Pow2(j) <= Pow2(k)
  {
    if j < k {
      Pow2Monotone(j, k - 1);
    }
  }

  /** A byte holds at most seven elements below its end marker. */
  lemma ByteHasAtMostSevenElements(code: Byte)
    requires code >= 1
    ensures |Elements(code)| <= 7
  {
    var es := Elements(code);
    EncodeOfElements(code);
    EncodeRange(es);
    assert Pow2(8) == 256;
    if |es| > 7 {
      Pow2Monotone(8, |es|);
    }
  }

  /** `c >> j` is non-zero exactly while j has not passed the end marker. */
  lemma {:induction false} ShrNonZero(code: nat, j: nat)
    requires code >= 1
    ensures Shr(code, j) != 0 <==> j <= |Elements(code)|
  {
    if j > 0 {
      if code == 1 {
        ShrOfZero(j - 1);
      } else {
        ShrNonZero(code / 2, j - 1);
      }
    }
  }

  lemma {:induction false} ShrOfZero(j: nat)
    ensures Shr(0, j) == 0
  {
    if j > 0 {
      ShrOfZero(j - 1);
    }
  }

  /** Below the end marker, bit j of a pattern is its j-th element (1 for a dah). */
  lemma {:induction false} BitReadIsElement(code: nat, j: nat)
    requires code >= 1
    requires j < |Elements(code)|
    ensures BitRead(code, j) == (if Elements(code)[j] == Dah then 1 else 0)
  {
    if j > 0 {
      BitReadIsElement(code / 2, j - 1);
    }
  }

  /** The bit at the end-marker position is set: it is the highest set bit. */
  lemma {:induction false} MarkerIsSet(code: nat)
    requires code >= 1
    ensures Shr(code, |Elements(code)|) == 1
  {
    if code != 1 {
      MarkerIsSet(code / 2);
    }
  }

  /** The pattern computed from a sign's text is the encoding of its elements. */
  lemma {:induction false} SignCodeIsEncode(sign: string)
    ensures SignCode(sign) == Encode(Parse(sign))
  {
    if sign != [] {
      SignCodeIsEncode(sign[1..]);
      assert Parse(sign)[1..] == Parse(sign[1..]);
    }
  }

  /** Every table entry sends exactly the elements of its character's reference sign. */
  lemma CtobMatchesCanonical(c: Byte)
    requires Canonical(c).Some?
    ensures Elements(Ctob(c)) == Parse(Canonical(c).value)
  {
    if c <= 36 {
      Signs33To36(c);
    } else if c <= 40 {
      Signs38To40(c);
    } else if c <= 44 {
      Signs41To44(c);
    } else if c <= 47 {
      Signs45To47(c);
    } else if c <= 50 {
      Signs48To50(c);
    } else if c <= 53 {
      Signs51To53(c);
    } else if c <= 56 {
      Signs54To56(c);
    } else if c <= 59 {
      Signs57To59(c);
    } else if c <= 64 {
      Signs61To64(c);
    } else if c <= 70 {
      Signs65To70(c);
    } else if c <= 76 {
      Signs71To76(c);
    } else if c <= 82 {
      Signs77To82(c);
    } else if c <= 88 {
      Signs83To88(c);
    } else if c <= 90 {
      Signs89To90(c);
    } else {
      Signs91To255(c);
    }
    var sign := Canonical(c).value;
    SignCodeIsEncode(sign);
    ElementsOfEncode(Parse(sign));
  }

  // The table is checked against the chart a few bytes at a time. Each case states the
  // chart's sign, the table's pattern and the pattern computed from the sign at the
  // literal byte, so the solver evaluates the three and compares them. Without these
  // facts, or over all bytes at once, the proof exceeds the solver's resource budget.

  lemma Signs33To36(c: Byte)
    requires 33 <= c <= 36 && Canonical(c).Some?
    ensures Ctob(c) == SignCode(Canonical(c).value)
  {
    match c
    case 33 => assert Canonical(c) == Some("-.-.--") && Ctob(c) == 0x75 && SignCode("-.-.--") == 0x75;  // '!'
    case 34 => assert Canonical(c) == Some(".-..-.") && Ctob(c) == 0x52 && SignCode(".-..-.") == 0x52;  // '"'
    case 36 => assert Canonical(c) == Some("...-..-") && Ctob(c) == 0xC8 && SignCode("...-..-") == 0xC8;  // '$'
    case _ =>
  }

  lemma Signs38To40(c: Byte)
    requires 38 <= c <= 40 && Canonical(c).Some?
    ensures Ctob(c) == SignCode(Canonical(c).value)
  {
    match c
    case 38 => assert Canonical(c) == Some(".-...") && Ctob(c) == 0x22 && SignCode(".-...") == 0x22;  // '&'
    case 39 => assert Canonical(c) == Some(".----.") && Ctob(c) == 0x5E && SignCode(".----.") == 0x5E;  // '\''
    case 40 => assert Canonical(c) == Some("-.--.") && Ctob(c) == 0x2D && SignCode("-.--.") == 0x2D;  // '('
  }

  lemma Signs41To44(c: Byte)
    requires 41 <= c <= 44 && Canonical(c).Some?
    ensures Ctob(c) == SignCode(Canonical(c).value)
  {
    match c
    case 41 => assert Canonical(c) == Some("-.--.-") && Ctob(c) == 0x6D && SignCode("-.--.-") == 0x6D;  // ')'
    case 43 => assert Canonical(c) == Some(".-.-.") && Ctob(c) == 0x2A && SignCode(".-.-.") == 0x2A;  // '+'
    case 44 => assert Canonical(c) == Some("--..--") && Ctob(c) == 0x73 && SignCode("--..--") == 0x73;  // ','
    case _ =>
  }

  lemma Signs45To47(c: Byte)
    requires 45 <= c <= 47 && Canonical(c).Some?
    ensures Ctob(c) == SignCode(Canonical(c).value)
  {
    match c
    case 45 => assert Canonical(c) == Some("-....-") && Ctob(c) == 0x61 && SignCode("-....-") == 0x61;  // '-'
    case 46 => assert Canonical(c) == Some(".-.-.-") && Ctob(c) == 0x6A && SignCode(".-.-.-") == 0x6A;  // '.'
    case 47 => assert Canonical(c) == Some("-..-.") && Ctob(c) == 0x29 && SignCode("-..-.") == 0x29;  // '/'
  }

  lemma Signs48To50(c: Byte)
    requires 48 <= c <= 50 && Canonical(c).Some?
    ensures Ctob(c) == SignCode(Canonical(c).value)
  {
    match c
    case 48 => assert Canonical(c) == Some("-----") && Ctob(c) == 0x3F && SignCode("-----") == 0x3F;  // '0'
    case 49 => assert Canonical(c) == Some(".----") && Ctob(c) == 0x3E && SignCode(".----") == 0x3E;  // '1'
    case 50 => assert Canonical(c) == Some("..---") && Ctob(c) == 0x3C && SignCode("..---") == 0x3C;  // '2'
  }

  lemma Signs51To53(c: Byte)
    requires 51 <= c <= 53 && Canonical(c).Some?
    ensures Ctob(c) == SignCode(Canonical(c).value)
  {
    match c
    case 51 => assert Canonical(c) == Some("...--") && Ctob(c) == 0x38 && SignCode("...--") == 0x38;  // '3'
    case 52 => assert Canonical(c) == Some("....-") && Ctob(c) == 0x30 && SignCode("....-") == 0x30;  // '4'
    case 53 => assert Canonical(c) == Some(".....") && Ctob(c) == 0x20 && SignCode(".....") == 0x20;  // '5'
  }

  lemma Signs54To56(c: Byte)
    requires 54 <= c <= 56 && Canonical(c).Some?
    ensures Ctob(c) == SignCode(Canonical(c).value)
  {
    match c
    case 54 => assert Canonical(c) == Some("-....") && Ctob(c) == 0x21 && SignCode("-....") == 0x21;  // '6'
    case 55 => assert Canonical(c) == Some("--...") && Ctob(c) == 0x23 && SignCode("--...") == 0x23;  // '7'
    case 56 => assert Canonical(c) == Some("---..") && Ctob(c) == 0x27 && SignCode("---..") == 0x27;  // '8'
  }

  lemma Signs57To59(c: Byte)
    requires 57 <= c <= 59 && Canonical(c).Some?
    ensures Ctob(c) == SignCode(Canonical(c).value)
  {
    match c
    case 57 => assert Canonical(c) == Some("----.") && Ctob(c) == 0x2F && SignCode("----.") == 0x2F;  // '9'
    case 58 => assert Canonical(c) == Some("---...") && Ctob(c) == 0x47 && SignCode("---...") == 0x47;  // ':'
    case 59 => assert Canonical(c) == Some("-.-.-.") && Ctob(c) == 0x55 && SignCode("-.-.-.") == 0x55;  // ';'
  }

  lemma Signs61To64(c: Byte)
    requires 61 <= c <= 64 && Canonical(c).Some?
    ensures Ctob(c) == SignCode(Canonical(c).value)
  {
    match c
    case 61 => assert Canonical(c) == Some("-...-") && Ctob(c) == 0x31 && SignCode("-...-") == 0x31;  // '='
    case 63 => assert Canonical(c) == Some("..--..") && Ctob(c) == 0x4C && SignCode("..--..") == 0x4C;  // '?'
    case 64 => assert Canonical(c) == Some(".--.-.") && Ctob(c) == 0x56 && SignCode(".--.-.") == 0x56;  // '@'
    case _ =>
  }

  lemma Signs65To70(c: Byte)
    requires 65 <= c <= 70 && Canonical(c).Some?
    ensures Ctob(c) == SignCode(Canonical(c).value)
  {
    match c
    case 65 => assert Canonical(c) == Some(".-") && Ctob(c) == 0x06 && SignCode(".-") == 0x06;  // 'A'
    case 66 => assert Canonical(c) == Some("-...") && Ctob(c) == 0x11 && SignCode("-...") == 0x11;  // 'B'
    case 67 => assert Canonical(c) == Some("-.-.") && Ctob(c) == 0x15 && SignCode("-.-.") == 0x15;  // 'C'
    case 68 => assert Canonical(c) == Some("-..") && Ctob(c) == 0x09 && SignCode("-..") == 0x09;  // 'D'
    case 69 => assert Canonical(c) == Some(".") && Ctob(c) == 0x02 && SignCode(".") == 0x02;  // 'E'
    case 70 => assert Canonical(c) == Some("..-.") && Ctob(c) == 0x14 && SignCode("..-.") == 0x14;  // 'F'
  }

  lemma Signs71To76(c: Byte)
    requires 71 <= c <= 76 && Canonical(c).Some?
    ensures Ctob(c) == SignCode(Canonical(c).value)
  {
    match c
    case 71 => assert Canonical(c) == Some("--.") && Ctob(c) == 0x0B && SignCode("--.") == 0x0B;  // 'G'
    case 72 => assert Canonical(c) == Some("....") && Ctob(c) == 0x10 && SignCode("....") == 0x10;  // 'H'
    case 73 => assert Canonical(c) == Some("..") && Ctob(c) == 0x04 && SignCode("..") == 0x04;  // 'I'
    case 74 => assert Canonical(c) == Some(".---") && Ctob(c) == 0x1E && SignCode(".---") == 0x1E;  // 'J'
    case 75 => assert Canonical(c) == Some("-.-") && Ctob(c) == 0x0D && SignCode("-.-") == 0x0D;  // 'K'
    case 76 => assert Canonical(c) == Some(".-..") && Ctob(c) == 0x12 && SignCode(".-..") == 0x12;  // 'L'
  }

  lemma Signs77To82(c: Byte)
    requires 77 <= c <= 82 && Canonical(c).Some?
    ensures Ctob(c) == SignCode(Canonical(c).value)
  {
    match c
    case 77 => assert Canonical(c) == Some("--") && Ctob(c) == 0x07 && SignCode("--") == 0x07;  // 'M'
    case 78 => assert Canonical(c) == Some("-.") && Ctob(c) == 0x05 && SignCode("-.") == 0x05;  // 'N'
    case 79 => assert Canonical(c) == Some("---") && Ctob(c) == 0x0F && SignCode("---") == 0x0F;  // 'O'
    case 80 => assert Canonical(c) == Some(".--.") && Ctob(c) == 0x16 && SignCode(".--.") == 0x16;  // 'P'
    case 81 => assert Canonical(c) == Some("--.-") && Ctob(c) == 0x1B && SignCode("--.-") == 0x1B;  // 'Q'
    case 82 => assert Canonical(c) == Some(".-.") && Ctob(c) == 0x0A && SignCode(".-.") == 0x0A;  // 'R'
  }

  lemma Signs83To88(c: Byte)
    requires 83 <= c <= 88 && Canonical(c).Some?
    ensures Ctob(c) == SignCode(Canonical(c).value)
  {
    match c
    case 83 => assert Canonical(c) == Some("...") && Ctob(c) == 0x08 && SignCode("...") == 0x08;  // 'S'
    case 84 => assert Canonical(c) == Some("-") && Ctob(c) == 0x03 && SignCode("-") == 0x03;  // 'T'
    case 85 => assert Canonical(c) == Some("..-") && Ctob(c) == 0x0C && SignCode("..-") == 0x0C;  // 'U'
    case 86 => assert Canonical(c) == Some("...-") && Ctob(c) == 0x18 && SignCode("...-") == 0x18;  // 'V'
    case 87 => assert Canonical(c) == Some(".--") && Ctob(c) == 0x0E && SignCode(".--") == 0x0E;  // 'W'
    case 88 => assert Canonical(c) == Some("-..-") && Ctob(c) == 0x19 && SignCode("-..-") == 0x19;  // 'X'
  }

  lemma Signs89To90(c: Byte)
    requires 89 <= c <= 90 && Canonical(c).Some?
    ensures Ctob(c) == SignCode(Canonical(c).value)
  {
    match c
    case 89 => assert Canonical(c) == Some("-.--") && Ctob(c) == 0x1D && SignCode("-.--") == 0x1D;  // 'Y'
    case 90 => assert Canonical(c) == Some("--..") && Ctob(c) == 0x13 && SignCode("--..") == 0x13;  // 'Z'
  }

  lemma Signs91To255(c: Byte)
    requires 91 <= c && Canonical(c).Some?
    ensures Ctob(c) == SignCode(Canonical(c).value)
  {
    match c
    case 95 => assert Canonical(c) == Some("..--.-") && Ctob(c) == 0x6C && SignCode("..--.-") == 0x6C;  // '_'
    case _ =>
  }

  /** Characters without a sign of their own are sent as "......-". */
  lemma NotFoundSign(c: Byte)
    requires c != Space && Canonical(c).None?
    ensures Ctob(c) == NotFound
    ensures Elements(Ctob(c)) == [Dit, Dit, Dit, Dit, Dit, Dit, Dah]
  {
    if c < 48 {
      UnlistedBetween(c, 0, 47);
    } else if c < 65 {
      UnlistedBetween(c, 48, 64);
    } else if c < 91 {
      UnlistedBetween(c, 65, 90);
    } else {
      UnlistedBetween(c, 91, 255);
    }
    NotFoundElements();
  }

  lemma NotFoundElements()
    ensures Elements(NotFound) == [Dit, Dit, Dit, Dit, Dit, Dit, Dah]
  {
  }

  /** A byte with no sign in the chart has no entry in the table either; checked one
      range of bytes at a time. */
  lemma UnlistedBetween(c: Byte, lo: Byte, hi: Byte)
    requires lo <= c <= hi && c != Space && Canonical(c).None?
    requires (lo, hi) in {(0, 47), (48, 64), (65, 90), (91, 255)}
    ensures Ctob(c) == NotFound
  {
  }

  lemma CtobExamples()
    ensures Elements(Ctob(69)) == [Dit]                 // 'E'
    ensures Elements(Ctob(84)) == [Dah]                 // 'T'
    ensures Elements(Ctob(65)) == [Dit, Dah]            // 'A'
    ensures Elements(Ctob(66)) == [Dah, Dit, Dit, Dit]  // 'B'
  {
    assert Ctob(69) == 2 && Ctob(84) == 3 && Ctob(65) == 6 && Ctob(66) == 17;
  }

  /** A lower-case letter has no entry of its own; upper-cased, it uses its letter's
      entry. */
  lemma LowerCaseLetter(c: Byte)
    requires 97 <= c <= 122
    ensures Ctob(c) == NotFound
    ensures Canonical(ToUpper(c)).Some? && Ctob(ToUpper(c)) != NotFound
  {
  }
}
