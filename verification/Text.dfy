/** The string operations the scripts rely on: decimal numbers, `split`, `join`,
    cutting a string at a separator, and trimming white space. */
module Text {

  datatype Option<+T> = None | Some(value: T)

  /** A value, or the error the script throws. */
  datatype Result<+T> = Ok(value: T) | Err(message: string)

  // ── Characters ────────────────────────────────────────────────────────

  predicate IsDigit(c: char) { '0' <= c <= '9' }

  predicate IsHex(c: char) { '0' <= c <= '9' || 'a' <= c <= 'f' }

  /** The character class `[0-9A-Za-z-]`. */
  predicate IsWordChar(c: char) { IsDigit(c) || 'a' <= c <= 'z' || 'A' <= c <= 'Z' || c == '-' }

  /** `s` matches `\d*`. */
  predicate Digits(s: string) { s == "" || (IsDigit(s[0]) && Digits(s[1..])) }

  predicate AllHex(s: string) { s == "" || (IsHex(s[0]) && AllHex(s[1..])) }

  /** `s` matches `[0-9A-Za-z-]*`. */
  predicate AllWordChars(s: string) { s == "" || (IsWordChar(s[0]) && AllWordChars(s[1..])) }

  // ── Numbers ───────────────────────────────────────────────────────────

  /** The regular expression `0|[1-9]\d*`. */
  predicate IsNumeral(s: string) { s != "" && Digits(s) && (|s| == 1 || s[0] != '0') }

  /** The value of a string of digits read after `acc`. */
  function ToNat(s: string, acc: nat := 0): nat
    requires Digits(s)
  {
    if s == "" then acc else ToNat(s[1..], 10 * acc + (s[0] as int - '0' as int))
  }

  function DigitChar(d: nat): char
    requires d < 10
  {
    (d + '0' as int) as char
  }

  function FromNat(n: nat): string {
    if n < 10 then [DigitChar(n)] else FromNat(n / 10) + [DigitChar(n % 10)]
  }

  lemma {:induction false} DigitsAppend(s: string, d: nat, acc: nat)
    requires Digits(s) && d < 10
    ensures Digits(s + [DigitChar(d)])
    ensures ToNat(s + [DigitChar(d)], acc) == 10 * ToNat(s, acc) + d
  {
    var t := s + [DigitChar(d)];
    if s == "" {
      assert t[1..] == "";
    } else {
      assert t[1..] == s[1..] + [DigitChar(d)];
      DigitsAppend(s[1..], d, 10 * acc + (s[0] as int - '0' as int));
    }
  }

  /** Printing a number gives a numeral that reads back as the number. */
  lemma {:induction false} FromNatReadsBack(n: nat)
    ensures IsNumeral(FromNat(n)) && ToNat(FromNat(n)) == n
    ensures n > 0 ==> FromNat(n)[0] != '0'
  {
    if n < 10 {
      assert FromNat(n)[1..] == "";
    } else {
      FromNatReadsBack(n / 10);
      DigitsAppend(FromNat(n / 10), n % 10, 0);
    }
  }

  lemma {:induction false} DigitsInit(s: string)
    requires Digits(s) && s != ""
    ensures Digits(s[..|s| - 1]) && IsDigit(s[|s| - 1])
  {
    if |s| > 1 {
      DigitsInit(s[1..]);
      assert s[..|s| - 1][1..] == s[1..][..|s| - 2];
    }
  }

  /** A numeral is the printed form of the number it reads as. */
  lemma {:induction false} NumeralPrintsBack(s: string)
    requires IsNumeral(s)
    ensures FromNat(ToNat(s)) == s
    ensures s[0] != '0' ==> ToNat(s) > 0
  {
    var front, d := s[..|s| - 1], s[|s| - 1] as int - '0' as int;
    DigitsInit(s);
    assert s == front + [DigitChar(d)];
    DigitsAppend(front, d, 0);
    if |s| > 1 { NumeralPrintsBack(front); }
  }

  // ── Cutting and splitting ─────────────────────────────────────────────

  /** The text before the first `c`, and the text after it when there is one. */
  function Cut(s: string, c: char): (string, Option<string>) {
    if s == "" then ("", None)
    else if s[0] == c then ("", Some(s[1..]))
    else
      var rest := Cut(s[1..], c);
      ([s[0]] + rest.0, rest.1)
  }

  /** Undoes `Cut`. */
  function Paste(head: string, c: char, tail: Option<string>): string {
    match tail
    case None => head
    case Some(t) => head + [c] + t
  }

  /** `s` does not contain `c`. */
  predicate Without(s: string, c: char) { s == "" || (s[0] != c && Without(s[1..], c)) }

  lemma {:induction false} PasteCut(s: string, c: char)
    ensures Paste(Cut(s, c).0, c, Cut(s, c).1) == s
    ensures Without(Cut(s, c).0, c)
  {
    if s != "" {
      assert s == [s[0]] + s[1..];
      if s[0] != c {
        PasteCut(s[1..], c);
        assert Cut(s, c).0[1..] == Cut(s[1..], c).0;
      }
    }
  }

  lemma {:induction false} CutPaste(head: string, c: char, tail: Option<string>)
    requires Without(head, c)
    ensures Cut(Paste(head, c, tail), c) == (head, tail)
    decreases |head| + if tail.Some? then 1 else 0
  {
    var s := Paste(head, c, tail);
    if head == "" {
      if tail.Some? { assert s[1..] == tail.value; }
    } else {
      CutPaste(head[1..], c, tail);
      assert s[1..] == Paste(head[1..], c, tail);
      assert head == [head[0]] + head[1..];
    }
  }

  /** `s.split(c)`. */
  function Split(s: string, c: char): (parts: seq<string>)
    ensures parts != []
  {
    if s == "" then [""]
    else
      var rest := Split(s[1..], c);
      if s[0] == c then [""] + rest else [[s[0]] + rest[0]] + rest[1..]
  }

  /** `parts.join(c)`. */
  function Join(parts: seq<string>, c: char): string {
    if parts == [] then ""
    else if |parts| == 1 then parts[0]
    else parts[0] + [c] + Join(parts[1..], c)
  }

  predicate AllWithout(parts: seq<string>, c: char) {
    parts == [] || (Without(parts[0], c) && AllWithout(parts[1..], c))
  }

  lemma {:induction false} JoinSplit(s: string, c: char)
    ensures Join(Split(s, c), c) == s
  {
    if s != "" {
      var rest := Split(s[1..], c);
      JoinSplit(s[1..], c);
      assert s == [s[0]] + s[1..];
      assert Split(s, c)[1..] == if s[0] == c then rest else rest[1..];
    }
  }

  /** Splitting a join whose parts lack the separator gives the parts back. */
  lemma {:induction false} SplitJoin(parts: seq<string>, c: char)
    requires parts != [] && AllWithout(parts, c)
    ensures Split(Join(parts, c), c) == parts
    decreases |Join(parts, c)|, |parts|
  {
    var s := Join(parts, c);
    assert parts == [parts[0]] + parts[1..];
    if parts[0] == "" {
      if |parts| > 1 {
        assert s[1..] == Join(parts[1..], c);
        SplitJoin(parts[1..], c);
      }
    } else {
      var shorter := [parts[0][1..]] + parts[1..];
      assert shorter[1..] == parts[1..];
      assert s[1..] == Join(shorter, c);
      SplitJoin(shorter, c);
      assert parts[0] == [parts[0][0]] + parts[0][1..];
    }
  }

  lemma {:induction false} WithoutConcat(s: string, t: string, c: char)
    requires Without(s, c) && Without(t, c)
    ensures Without(s + t, c)
  {
    if s == "" { assert s + t == t; }
    else {
      assert (s + t)[1..] == s[1..] + t;
      WithoutConcat(s[1..], t, c);
    }
  }

  /** A join contains only characters of its parts and the separator. */
  lemma {:induction false} JoinWithout(parts: seq<string>, c: char, d: char)
    requires d != c && AllWithout(parts, d)
    ensures Without(Join(parts, c), d)
  {
    if |parts| > 1 {
      JoinWithout(parts[1..], c, d);
      WithoutConcat([c], Join(parts[1..], c), d);
      WithoutConcat(parts[0], [c] + Join(parts[1..], c), d);
      assert parts[0] + [c] + Join(parts[1..], c) == parts[0] + ([c] + Join(parts[1..], c));
    }
  }

  lemma {:induction false} WordWithout(s: string, c: char)
    requires AllWordChars(s) && !IsWordChar(c)
    ensures Without(s, c)
  {
    if s != "" { WordWithout(s[1..], c); }
  }

  lemma {:induction false} DigitsWithout(s: string, c: char)
    requires Digits(s) && !IsDigit(c)
    ensures Without(s, c)
  {
    if s != "" { DigitsWithout(s[1..], c); }
  }

  // ── Trimming ──────────────────────────────────────────────────────────

  /** The characters `String.prototype.trim` removes. */
  predicate IsSpace(c: char) {
    || '\U{0009}' <= c <= '\U{000D}' || c == ' ' || c == '\U{00A0}' || c == '\U{1680}'
    || '\U{2000}' <= c <= '\U{200A}' || c == '\U{2028}' || c == '\U{2029}' || c == '\U{202F}'
    || c == '\U{205F}' || c == '\U{3000}' || c == '\U{FEFF}'
  }

  function Trim(s: string): string {
    if s != "" && IsSpace(s[0]) then Trim(s[1..])
    else if s != "" && IsSpace(s[|s| - 1]) then Trim(s[..|s| - 1])
    else s
  }

  lemma {:induction false} LastWordChar(s: string)
    requires AllWordChars(s) && s != ""
    ensures IsWordChar(s[|s| - 1])
  {
    if |s| > 1 { LastWordChar(s[1..]); }
  }
}
