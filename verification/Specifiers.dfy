/** The dictionary of the specifiers of numbers and strings: which of them the parser takes after a '%', and which type
    each of them means. */
module Specifiers {
  import opened AdiakTypes
  import opened TypeStrings

  /** A number or a string with its category and the bytes that it takes. */
  function Simple(tag: Tag, category: Numerical, bytes: nat): DType {
    DType(tag, category, 0, [], false, 0, bytes)
  }

  function Text(tag: Tag, category: Numerical, inside: bool): DType {
    DType(tag, category, 0, [], inside, 0, 8)
  }

  /** The type of a letter with a length in bits, 0 if there is none, after l times 'l'. Only a 'd' and a 'u' without
      a length look at the 'l'. */
  function TypeOf(letter: char, bits: nat, l: nat, inside: bool): Option<DType> {
    if letter == 'u' && bits == 0 then Some(Simple(Unsigneds(l), Rational, if l == 0 then 4 else 8))
    else if letter == 'i' || letter == 'u' || letter == 'f' then NumberOf(letter, bits)
    else if bits > 0 then None
    else if letter == 'd' then Some(Simple(Signeds(l), Rational, if l == 0 then 4 else 8))
    else NameOf(letter, inside)
  }

  function Signeds(l: nat): Tag {
    if l == 0 then Int else if l == 1 then Long else LongLong
  }

  function Unsigneds(l: nat): Tag {
    if l == 0 then UInt else if l == 1 then ULong else ULongLong
  }

  function NumberOf(letter: char, bits: nat): Option<DType> {
    if letter == 'f' then
      match bits
      case 32 => Some(Simple(Double, Rational, 4))
      case 0 | 64 => Some(Simple(Double, Rational, 8))
      case _ => None
    else
      match bits
      case 8 | 16 | 32 => Some(Simple(if letter == 'i' then Int else UInt, Rational, bits / 8))
      case 64 => Some(Simple(if letter == 'i' then LongLong else ULongLong, Rational, 8))
      case 0 => Some(Simple(Int, Rational, 4))
      case _ => None
  }

  function NameOf(letter: char, inside: bool): Option<DType> {
    match letter
    case 'D' => Some(Simple(Date, Interval, 8))
    case 't' => Some(Simple(Timeval, Interval, 8))
    case 'v' => Some(Text(Version, Ordinal, inside))
    case 's' => Some(Text(String, Ordinal, inside))
    case 'r' => Some(Text(CatString, Categorical, inside))
    case 'j' => Some(Text(JsonString, Categorical, inside))
    case 'p' => Some(Text(Path, Categorical, inside))
    case _ => None
  }

  /** A length as it is written. */
  function Digits(bits: nat): string {
    match bits
    case 8 => "8"
    case 16 => "16"
    case 32 => "32"
    case 64 => "64"
    case _ => ""
  }

  /** At p stand l times 'l', at most two, the letter and the length, and no digit where there is no length. */
  predicate StandsThere(s: string, p: nat, l: nat, letter: char, bits: nat) {
    && l <= 2 && p + l + 1 + |Digits(bits)| <= |s| && s[p + l] == letter
    && (l > 0 ==> s[p] == 'l') && (l > 1 ==> s[p + 1] == 'l')
    && (|Digits(bits)| > 0 ==> s[p + l + 1] == Digits(bits)[0])
    && (|Digits(bits)| > 1 ==> s[p + l + 2] == Digits(bits)[1])
    && (letter in {'u', 'i', 'f'} && bits == 0 ==> !IsDigit(At(s, p + l + 1)))
  }

  /** Where the specifier ends. */
  function EndOf(p: nat, l: nat, bits: nat): nat {
    p + l + 1 + |Digits(bits)|
  }

  /** A specifier of the dictionary is read as it says. */
  lemma EntryReads(s: string, p: nat, l: nat, letter: char, bits: nat, inside: bool)
    requires CString(s) && StandsThere(s, p, l, letter, bits) && TypeOf(letter, bits, l, inside).Some?
    ensures ParseScalar(s, p, inside) == Some((TypeOf(letter, bits, l, inside).value, EndOf(p, l, bits)))
  {
    LetterStands(s, p, l);
    if letter in {'u', 'i', 'f'} {
      NumberReads(letter, bits, l, inside);
      NumberThere(s, p, l, letter, bits, inside);
    } else {
      NameReads(letter, bits, l, inside);
      ParsedBy(s, p, l, 0, p + l, inside);
    }
  }

  lemma NumberThere(s: string, p: nat, l: nat, letter: char, bits: nat, inside: bool)
    requires CString(s) && StandsThere(s, p, l, letter, bits) && LetterAt(s, p) == p + l
    requires letter in {'u', 'i', 'f'} && bits in {0, 8, 16, 32, 64}
    requires ScalarFor(letter, l > 0, l > 1, bits / 8, inside).Some?
    ensures ParseScalar(s, p, inside)
         == Some((ScalarFor(letter, l > 0, l > 1, bits / 8, inside).value, EndOf(p, l, bits)))
  {
    LengthIs(s, p + l, bits);
    ParsedBy(s, p, l, bits / 8, p + l + |Digits(bits)|, inside);
  }

  /** The parse, once the letter and the length are known. */
  lemma ParsedBy(s: string, p: nat, l: nat, len: int, last: nat, inside: bool)
    requires CString(s) && p + l < |s| && LetterAt(s, p) == p + l
    requires (if s[p + l] in {'u', 'i', 'f'} then ScalarLenSpec(s, p + l) else (0, p + l)) == (len, last)
    ensures ParseScalar(s, p, inside)
         == match ScalarFor(s[p + l], l > 0, l > 1, len, inside)
            case None => None
            case Some(t) => Some((t, last + 1))
  {
  }

  lemma NameReads(letter: char, bits: nat, l: nat, inside: bool)
    requires letter !in {'u', 'i', 'f'} && TypeOf(letter, bits, l, inside).Some?
    ensures bits == 0 && ScalarFor(letter, l > 0, l > 1, 0, inside) == TypeOf(letter, bits, l, inside)
  {
  }

  lemma LetterStands(s: string, p: nat, l: nat)
    requires l <= 2 && p + l < |s| && (l > 0 ==> s[p] == 'l') && (l > 1 ==> s[p + 1] == 'l') && s[p + l] != 'l'
    ensures LetterAt(s, p) == p + l
  {
  }

  lemma NumberReads(letter: char, bits: nat, l: nat, inside: bool)
    requires letter in {'u', 'i', 'f'} && TypeOf(letter, bits, l, inside).Some?
    ensures bits in {0, 8, 16, 32, 64}
    ensures ScalarFor(letter, l > 0, l > 1, bits / 8, inside) == TypeOf(letter, bits, l, inside)
  {
  }

  /** The length in bytes. */
  lemma LengthIs(s: string, c: nat, bits: nat)
    requires CString(s) && c + 1 + |Digits(bits)| <= |s| && bits in {0, 8, 16, 32, 64}
    requires |Digits(bits)| > 0 ==> s[c + 1] == Digits(bits)[0]
    requires |Digits(bits)| > 1 ==> s[c + 2] == Digits(bits)[1]
    requires bits == 0 ==> !IsDigit(At(s, c + 1))
    ensures ScalarLenSpec(s, c) == (bits / 8, c + |Digits(bits)|)
  {
  }

  /** What is read is in the dictionary. */
  lemma ReadIsEntry(s: string, p: nat, inside: bool) returns (l: nat, letter: char, bits: nat)
    requires CString(s) && p <= |s| && ParseScalar(s, p, inside).Some?
    ensures StandsThere(s, p, l, letter, bits)
    ensures TypeOf(letter, bits, l, inside) == Some(ParseScalar(s, p, inside).value.0)
    ensures EndOf(p, l, bits) == ParseScalar(s, p, inside).value.1
  {
    var c := LetterAt(s, p);
    l, letter, bits := c - p, s[c], 0;
    if letter in {'u', 'i', 'f'} {
      var (len, last) := ScalarLenSpec(s, c);
      ParsedBy(s, p, l, len, last, inside);
      bits := 8 * len;
      NumberIsEntry(letter, len, l, inside);
      DigitsStand(s, c, bits);
    } else {
      ParsedBy(s, p, l, 0, c, inside);
      NameIsEntry(letter, l, inside);
    }
  }

  lemma NumberIsEntry(letter: char, len: int, l: nat, inside: bool)
    requires letter in {'u', 'i', 'f'} && ScalarFor(letter, l > 0, l > 1, len, inside).Some?
    ensures len in {0, 1, 2, 4, 8} && TypeOf(letter, 8 * len, l, inside) == ScalarFor(letter, l > 0, l > 1, len, inside)
  {
  }

  lemma NameIsEntry(letter: char, l: nat, inside: bool)
    requires letter !in {'u', 'i', 'f'} && ScalarFor(letter, l > 0, l > 1, 0, inside).Some?
    ensures TypeOf(letter, 0, l, inside) == ScalarFor(letter, l > 0, l > 1, 0, inside)
  {
  }

  /** A length that is read stands there. */
  lemma DigitsStand(s: string, c: nat, bits: nat)
    requires CString(s) && c < |s| && ScalarLenSpec(s, c).0 == bits / 8 && bits in {0, 8, 16, 32, 64}
    ensures ScalarLenSpec(s, c).1 == c + |Digits(bits)| < |s|
    ensures |Digits(bits)| > 0 ==> s[c + 1] == Digits(bits)[0]
    ensures |Digits(bits)| > 1 ==> s[c + 2] == Digits(bits)[1]
    ensures bits == 0 ==> !IsDigit(At(s, c + 1))
  {
  }

  /** The parser takes exactly the specifiers of the dictionary, each for its own type. */
  lemma ScalarExactly(s: string, p: nat, inside: bool, t: DType, q: nat)
    requires CString(s) && p <= |s|
    ensures ParseScalar(s, p, inside) == Some((t, q))
       <==> exists l: nat, letter: char, bits: nat ::
              StandsThere(s, p, l, letter, bits) && TypeOf(letter, bits, l, inside) == Some(t) && q == EndOf(p, l, bits)
  {
    if ParseScalar(s, p, inside) == Some((t, q)) {
      var l, letter, bits := ReadIsEntry(s, p, inside);
    }
    if l: nat, letter: char, bits: nat :|
      (StandsThere(s, p, l, letter, bits) && TypeOf(letter, bits, l, inside) == Some(t) && q == EndOf(p, l, bits))
    {
      EntryReads(s, p, l, letter, bits, inside);
    }
  }
}
