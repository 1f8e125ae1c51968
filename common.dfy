/**
 * Shared vocabulary of the model: optional values and results, the HTTP error that
 * FastAPI's HTTPException carries, bytes, and the few pieces of Python string
 * behaviour the backend relies on (str(int), int(str), str.strip, str.split,
 * str.lower and the character-class tests).
 */
module Common {

  datatype Option<+T> = None | Some(value: T)

  datatype Result<+T, +E> = Success(value: T) | Failure(error: E)

  /** An HTTPException: a status code and its detail text. */
  datatype HttpError = HttpError(status: int, detail: string)

  const BAD_REQUEST := 400
  const UNAUTHORIZED := 401
  const FORBIDDEN := 403
  const NOT_FOUND := 404
  const UNPROCESSABLE := 422
  const TOO_MANY_REQUESTS := 429
  const INTERNAL_ERROR := 500

  newtype byte = b: int | 0 <= b < 256

  /** The suffix of `s` starting at index `n`; Python's `s[n:]` never fails. */
  function Drop<T>(s: seq<T>, n: nat): seq<T>
  {
    if n <= |s| then s[n..] else []
  }

  /** Python's `s[:n]` for a non-negative `n`. */
  function Take<T>(s: seq<T>, n: nat): (r: seq<T>)
    ensures |r| == if n <= |s| then n else |s|
    ensures r <= s
  {
    if n <= |s| then s[..n] else s
  }

  predicate StartsWith(s: string, prefix: string)
  {
    |prefix| <= |s| && s[..|prefix|] == prefix
  }

  // ---------------------------------------------------------------------------
  // Decimal numbers: str(n) and int(s)

  predicate IsAsciiDigit(c: char)
  {
    '0' <= c <= '9'
  }

  function DigitChar(d: nat): char
    requires d < 10
  {
    ['0', '1', '2', '3', '4', '5', '6', '7', '8', '9'][d]
  }

  function DigitValue(c: char): nat
    requires IsAsciiDigit(c)
  {
    c as nat - '0' as nat
  }

  /** Python's `str(n)` for a natural number: its decimal digits, most significant first. */
  function NatToString(n: nat): (s: string)
    decreases n
  {
    if n < 10 then [DigitChar(n)] else NatToString(n / 10) + [DigitChar(n % 10)]
  }

  /** Python's `str(n)` for any integer. */
  function IntToString(n: int): string
  {
    if n < 0 then "-" + NatToString(-n) else NatToString(n)
  }

  /** The value of a run of decimal digits. */
  function DecimalValue(s: string): nat
    requires forall i :: 0 <= i < |s| ==> IsAsciiDigit(s[i])
  {
    if s == [] then 0 else DecimalValue(s[..|s| - 1]) * 10 + DigitValue(s[|s| - 1])
  }

  lemma DigitCharValue(d: nat)
    requires d < 10
    ensures IsAsciiDigit(DigitChar(d)) && DigitValue(DigitChar(d)) == d
  {
  }

  lemma {:induction false} NatToStringDigits(n: nat)
    ensures |NatToString(n)| >= 1
    ensures forall i :: 0 <= i < |NatToString(n)| ==> IsAsciiDigit(NatToString(n)[i])
    ensures DecimalValue(NatToString(n)) == n
    decreases n
  {
    if n < 10 {
      DigitCharValue(n);
    } else {
      NatToStringDigits(n / 10);
      DigitCharValue(n % 10);
      var front := NatToString(n / 10);
      var s := front + [DigitChar(n % 10)];
      assert s == NatToString(n);
      assert s[..|s| - 1] == front;
      assert DecimalValue(s) == DecimalValue(front) * 10 + n % 10;
    }
  }

  /** The characters Python's `str.isspace` accepts (and `str.strip()` / `int()` remove). */
  predicate IsSpace(c: char)
  {
    || c == ' ' || ('\t' <= c <= '\r') || ('\U{1C}' <= c <= '\U{1F}')
    || c == '\U{85}' || c == '\U{A0}' || c == '\U{1680}' || ('\U{2000}' <= c <= '\U{200A}')
    || c == '\U{2028}' || c == '\U{2029}' || c == '\U{202F}' || c == '\U{205F}' || c == '\U{3000}'
  }

  function StripLeft(s: string): (r: string)
    ensures r == [] || !IsSpace(r[0])
  {
    if s != [] && IsSpace(s[0]) then StripLeft(s[1..]) else s
  }

  function StripRight(s: string): (r: string)
    ensures r == [] || !IsSpace(r[|r| - 1])
  {
    if s != [] && IsSpace(s[|s| - 1]) then StripRight(s[..|s| - 1]) else s
  }

  lemma {:induction false} StripRightKeepsPrefix(s: string)
    ensures |StripRight(s)| <= |s| && StripRight(s) == s[..|StripRight(s)|]
  {
    if s != [] && IsSpace(s[|s| - 1]) {
      StripRightKeepsPrefix(s[..|s| - 1]);
    }
  }

  /** Python's `str.strip()` with no argument. */
  function Strip(s: string): (r: string)
    ensures r == [] || (!IsSpace(r[0]) && !IsSpace(r[|r| - 1]))
  {
    StripRightKeepsPrefix(StripLeft(s));
    StripRight(StripLeft(s))
  }

  /**
   * A base-10 digit run as Python's `int()` accepts it: digits, with single
   * underscores allowed only between two digits.
   */
  predicate DigitRun(b: string)
  {
    && |b| >= 1
    && IsAsciiDigit(b[0]) && IsAsciiDigit(b[|b| - 1])
    && (forall i :: 0 <= i < |b| ==> IsAsciiDigit(b[i]) || b[i] == '_')
    && (forall i :: 0 <= i < |b| - 1 ==> !(b[i] == '_' && b[i + 1] == '_'))
  }

  function DropUnderscores(b: string): (r: string)
    requires forall i :: 0 <= i < |b| ==> IsAsciiDigit(b[i]) || b[i] == '_'
    ensures forall i :: 0 <= i < |r| ==> IsAsciiDigit(r[i])
  {
    if b == [] then [] else (if b[0] == '_' then [] else [b[0]]) + DropUnderscores(b[1..])
  }

  lemma {:induction false} DropUnderscoresOfDigits(b: string)
    requires forall i :: 0 <= i < |b| ==> IsAsciiDigit(b[i])
    ensures DropUnderscores(b) == b
  {
    if b != [] {
      DropUnderscoresOfDigits(b[1..]);
    }
  }

  /** The value of an unsigned digit run, or `None` when `int()` would refuse it. */
  function ParseDigits(body: string): Option<nat>
  {
    if DigitRun(body) then Some(DecimalValue(DropUnderscores(body))) else None
  }

  /** A stripped, optionally signed digit run as `int()` reads it. */
  function ParseSigned(t: string): Option<int>
  {
    if t == [] then None
    else
      var body := if t[0] == '-' || t[0] == '+' then t[1..] else t;
      match ParseDigits(body)
      case None => None
      case Some(v) => Some(if t[0] == '-' then -(v as int) else v as int)
  }

  /** Python's `int(s)` on a string: `None` where it raises ValueError. Only ASCII digits are modelled. */
  function PyInt(s: string): Option<int>
  {
    ParseSigned(Strip(s))
  }

  lemma StripUnchanged(s: string)
    requires s != [] && !IsSpace(s[0]) && !IsSpace(s[|s| - 1])
    ensures Strip(s) == s
  {
    assert StripLeft(s) == s;
  }

  lemma ParseNatString(m: nat)
    ensures ParseDigits(NatToString(m)) == Some(m)
  {
    var d := NatToString(m);
    NatToStringDigits(m);
    DropUnderscoresOfDigits(d);
    assert DigitRun(d);
  }

  lemma DigitIsNotSpace(c: char)
    requires IsAsciiDigit(c)
    ensures !IsSpace(c)
  {
  }

  lemma NatRoundTrip(m: nat)
    ensures PyInt(NatToString(m)) == Some(m as int)
  {
    var d := NatToString(m);
    NatToStringDigits(m);
    ParseNatString(m);
    DigitIsNotSpace(d[0]);
    DigitIsNotSpace(d[|d| - 1]);
    StripUnchanged(d);
    assert d[0] != '-' && d[0] != '+';
  }

  lemma ParseNegative(d: string, m: nat)
    requires ParseDigits(d) == Some(m)
    ensures ParseSigned("-" + d) == Some(-(m as int))
  {
    assert ("-" + d)[1..] == d;
  }

  lemma NegativeRoundTrip(m: nat)
    ensures PyInt("-" + NatToString(m)) == Some(-(m as int))
  {
    var d := NatToString(m);
    NatToStringDigits(m);
    ParseNatString(m);
    DigitIsNotSpace(d[|d| - 1]);
    var s := "-" + d;
    assert s[|s| - 1] == d[|d| - 1];
    StripUnchanged(s);
    ParseNegative(d, m);
  }

  /** `int(str(n)) == n`: printing an integer and parsing it back is the identity. */
  lemma IntStringRoundTrip(n: int)
    ensures PyInt(IntToString(n)) == Some(n)
  {
    if n < 0 {
      NegativeRoundTrip(-n);
      assert IntToString(n) == "-" + NatToString(-n);
    } else {
      NatRoundTrip(n);
      assert IntToString(n) == NatToString(n);
    }
  }

  /** `str(-m)`, for a positive `m`: a minus sign, then digits. */
  lemma MinusDigits(m: nat)
    ensures var s := "-" + NatToString(m); forall i :: 0 <= i < |s| ==> IsAsciiDigit(s[i]) || s[i] == '-'
  {
    NatToStringDigits(m);
    var d := NatToString(m);
    var s := "-" + d;
    forall i | 0 <= i < |s|
      ensures IsAsciiDigit(s[i]) || s[i] == '-'
    {
      if i > 0 {
        assert s[i] == d[i - 1];
      }
    }
  }

  /** `str(n)` is a non-empty run of digits, with a leading minus sign when negative. */
  lemma IntStringShape(n: int)
    ensures |IntToString(n)| >= 1
    ensures forall i :: 0 <= i < |IntToString(n)| ==> IsAsciiDigit(IntToString(n)[i]) || IntToString(n)[i] == '-'
  {
    if n < 0 {
      MinusDigits(-n);
      assert IntToString(n) == "-" + NatToString(-n);
    } else {
      NatToStringDigits(n);
    }
  }

  // ---------------------------------------------------------------------------
  // Case mapping and character classes (ASCII only)

  function LowerChar(c: char): char
  {
    if 'A' <= c <= 'Z' then (c as int + 32) as char else c
  }

  /** Python's `str.lower()`, restricted to the ASCII letters. */
  function Lower(s: string): (r: string)
    ensures |r| == |s|
    ensures forall i :: 0 <= i < |s| ==> r[i] == LowerChar(s[i])
  {
    if s == [] then [] else [LowerChar(s[0])] + Lower(s[1..])
  }

  predicate IsAsciiUpper(c: char)
  {
    'A' <= c <= 'Z'
  }

  predicate IsAsciiLower(c: char)
  {
    'a' <= c <= 'z'
  }

  // ---------------------------------------------------------------------------
  // Splitting on a separator

  /** Python's `s.split(sep)` for a one-character separator: the pieces between separators, empty ones kept. */
  function Split(s: string, sep: char): (parts: seq<string>)
    ensures |parts| >= 1
  {
    if s == [] then [""]
    else
      var rest := Split(s[1..], sep);
      if s[0] == sep then [""] + rest else [[s[0]] + rest[0]] + rest[1..]
  }

  /** `sep.join(parts)`. */
  function Join(parts: seq<string>, sep: char): string
  {
    if |parts| == 0 then ""
    else if |parts| == 1 then parts[0]
    else parts[0] + [sep] + Join(parts[1..], sep)
  }

  /** The number of occurrences of `c` in `s`. */
  function Count(s: string, c: char): nat
  {
    if s == [] then 0 else (if s[0] == c then 1 else 0) + Count(s[1..], c)
  }

  /** Splitting yields one piece more than there are separators. */
  lemma {:induction false} SplitCount(s: string, sep: char)
    ensures |Split(s, sep)| == Count(s, sep) + 1
  {
    if s != [] {
      SplitCount(s[1..], sep);
    }
  }

  /** No piece of a split contains the separator. */
  lemma {:induction false} SplitPiecesFree(s: string, sep: char)
    ensures forall k :: 0 <= k < |Split(s, sep)| ==> sep !in Split(s, sep)[k]
  {
    if s != [] {
      SplitPiecesFree(s[1..], sep);
      var rest := Split(s[1..], sep);
      var parts := Split(s, sep);
      if s[0] == sep {
        assert parts == [""] + rest;
        forall k | 0 <= k < |parts| ensures sep !in parts[k] {
          if k > 0 {
            assert parts[k] == rest[k - 1];
          }
        }
      } else {
        assert parts == [[s[0]] + rest[0]] + rest[1..];
        forall k | 0 <= k < |parts| ensures sep !in parts[k] {
          if k > 0 {
            assert parts[k] == rest[k];
          }
        }
      }
    }
  }

  /** Joining the pieces of a split with the same separator gives back the text. */
  lemma {:induction false} SplitJoin(s: string, sep: char)
    ensures Join(Split(s, sep), sep) == s
  {
    if s != [] {
      SplitJoin(s[1..], sep);
      var rest := Split(s[1..], sep);
      var parts := Split(s, sep);
      if s[0] == sep {
        assert parts == [""] + rest;
        assert parts[1..] == rest;
        assert Join(parts, sep) == [sep] + Join(rest, sep);
        assert s == [sep] + s[1..];
      } else {
        assert parts[0] == [s[0]] + rest[0];
        assert parts[1..] == rest[1..];
        if |rest| == 1 {
          assert Join(parts, sep) == [s[0]] + rest[0];
        } else {
          assert Join(rest, sep) == rest[0] + [sep] + Join(rest[1..], sep);
          assert Join(parts, sep) == ([s[0]] + rest[0]) + [sep] + Join(rest[1..], sep);
        }
        assert s == [s[0]] + s[1..];
      }
    }
  }

  /** Text without the separator splits into itself alone. */
  lemma {:induction false} SplitFree(a: string, sep: char)
    requires sep !in a
    ensures Split(a, sep) == [a]
  {
    if a != [] {
      SplitFree(a[1..], sep);
      assert [a[0]] + a[1..] == a;
    }
  }

  /** A separator-free first piece comes off the front of a split. */
  lemma {:induction false} SplitPrefix(a: string, b: string, sep: char)
    requires sep !in a
    ensures Split(a + [sep] + b, sep) == [a] + Split(b, sep)
  {
    var s := a + [sep] + b;
    if a == [] {
      assert s == [sep] + b;
      assert s[1..] == b;
    } else {
      SplitPrefix(a[1..], b, sep);
      assert s[1..] == a[1..] + [sep] + b;
      assert [a[0]] + a[1..] == a;
    }
  }

  /** Splitting the join of separator-free pieces gives the pieces back. */
  lemma {:induction false} JoinSplit(parts: seq<string>, sep: char)
    requires |parts| >= 1
    requires forall k :: 0 <= k < |parts| ==> sep !in parts[k]
    ensures Split(Join(parts, sep), sep) == parts
  {
    if |parts| == 1 {
      SplitFree(parts[0], sep);
    } else {
      JoinSplit(parts[1..], sep);
      SplitPrefix(parts[0], Join(parts[1..], sep), sep);
      assert [parts[0]] + parts[1..] == parts;
    }
  }

  // ---------------------------------------------------------------------------
  // pydantic field errors

  /** Why pydantic refused one field. */
  datatype FieldProblem =
    | NotAnEmail
    | TooShort(minLength: nat)
    | TooLong(maxLength: nat)
    | PatternMismatch(pattern: string)
    | ValueError(message: string)

  datatype FieldError = FieldError(field: string, problem: FieldProblem)

  /** The length constraint on a text field, as pydantic reports it. */
  function LengthErrors(field: string, s: string, minLength: nat, maxLength: nat): (errs: seq<FieldError>)
    ensures errs == [] <==> minLength <= |s| <= maxLength
    ensures |errs| <= 1
  {
    if |s| < minLength then [FieldError(field, TooShort(minLength))]
    else if |s| > maxLength then [FieldError(field, TooLong(maxLength))]
    else []
  }

  /** `str.rfind(c)`: the last index of `c` in `s`, or -1. */
  function LastIndexOf(s: string, c: char): (i: int)
    ensures -1 <= i < |s|
    ensures i >= 0 ==> s[i] == c && (forall k :: i < k < |s| ==> s[k] != c)
    ensures i == -1 ==> (forall k :: 0 <= k < |s| ==> s[k] != c)
  {
    if s == [] then -1
    else if s[|s| - 1] == c then |s| - 1
    else LastIndexOf(s[..|s| - 1], c)
  }
}
