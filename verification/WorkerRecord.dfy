/** The text of the durable worker record: how the supervisor writes a process
    identifier and how a later supervisor reads it back.
 */
module WorkerRecordText {
  import opened SmcBaseline

  const INT_MAX := 0x7FFF_FFFF

  type Pid = p: int | 0 <= p <= INT_MAX

  function Digit(d: nat): char
    requires d < 10
  {
    '0' + d as char
  }

  function DigitValue(c: char): Option<nat> {
    if '0' <= c <= '9' then Some((c - '0') as nat) else None
  }

  /** %ld of a non-negative number. */
  function Decimal(n: nat): string {
    if n < 10 then [Digit(n)] else Decimal(n / 10) + [Digit(n % 10)]
  }

  const FIRST := "Ventilator"
  const SECOND_WORD := "worker"
  const THIRD := "v1"
  const PREFIX := FIRST + " " + (SECOND_WORD + " " + (THIRD + " "))

  function RecordText(pid: Pid): string {
    PREFIX + Decimal(pid) + "\n"
  }

  // ---------------------------------------------------------------------------
  // sscanf
  // ---------------------------------------------------------------------------

  predicate Space(c: char) {
    c == ' ' || '\t' <= c <= '\r'
  }

  /** A white-space directive matches any amount of white space, even none. */
  function SkipSpace(s: string): string {
    if s != "" && Space(s[0]) then SkipSpace(s[1..]) else s
  }

  /** The rest of s after the directives in format; white space and literal characters only. */
  function Match(format: string, s: string): Option<string>
    decreases |format|
  {
    if format == "" then Some(s)
    else if Space(format[0]) then Match(format[1..], SkipSpace(s))
    else if s != "" && s[0] == format[0] then Match(format[1..], s[1..])
    else None
  }

  /** The longest run of digits, continuing a number read so far, and the rest. */
  function Digits(read: nat, s: string): (nat, string)
    decreases |s|
  {
    if s != "" && DigitValue(s[0]).Some? then Digits(10 * read + DigitValue(s[0]).value, s[1..])
    else (read, s)
  }

  /** %ld: white space, a sign, and at least one digit. */
  function Number(s: string): Option<(int, string)> {
    var t := SkipSpace(s);
    var negative := t != "" && t[0] == '-';
    var u := if t != "" && (t[0] == '-' || t[0] == '+') then t[1..] else t;
    if u == "" || DigitValue(u[0]).None? then None
    else
      var (n: int, rest) := Digits(0, u);
      Some((if negative then -n else n, rest))
  }

  /** The process a record names: the text must be consumed to its end. */
  function ParseRecord(text: string): Option<Pid> {
    match Match(PREFIX, text)
    case None => None
    case Some(t) =>
      match Number(t)
      case None => None
      case Some((recorded, rest)) =>
        if SkipSpace(rest) == "" && 0 <= recorded <= INT_MAX then Some(recorded) else None
  }

  // ---------------------------------------------------------------------------
  // Reading back what was written
  // ---------------------------------------------------------------------------

  lemma {:induction false} MatchLiteral(format: string, rest: string)
    requires rest == "" || !Space(rest[0])
    ensures Match(format, format + rest) == Some(rest)
    decreases |format|
  {
    if format == "" {
      assert format + rest == rest;
    } else {
      assert (format + rest)[1..] == format[1..] + rest;
      if Space(format[0]) {
        SkipWithin(format[1..], rest);
        MatchSkipped(format[1..], rest);
      } else {
        MatchLiteral(format[1..], rest);
      }
    }
  }

  /** Skipping white space before the rest of a format that is followed by text. */
  lemma {:induction false} SkipWithin(format: string, rest: string)
    requires rest == "" || !Space(rest[0])
    ensures SkipSpace(format + rest) == SkipSpace(format) + rest
    decreases |format|
  {
    if format == "" {
      assert format + rest == rest;
    } else if Space(format[0]) {
      assert (format + rest)[1..] == format[1..] + rest;
      SkipWithin(format[1..], rest);
    }
  }

  lemma {:induction false} MatchSkipped(format: string, rest: string)
    requires rest == "" || !Space(rest[0])
    ensures Match(format, SkipSpace(format + rest)) == Some(rest)
    decreases |format|
  {
    SkipWithin(format, rest);
    if format == "" {
      assert format + rest == rest;
    } else if Space(format[0]) {
      assert (format + rest)[1..] == format[1..] + rest;
      SkipTwice(format[1..] + rest);
      MatchSkipped(format[1..], rest);
    } else {
      assert (format + rest)[1..] == format[1..] + rest;
      MatchLiteral(format[1..], rest);
    }
  }

  lemma {:induction false} SkipTwice(s: string)
    ensures SkipSpace(SkipSpace(s)) == SkipSpace(s)
    decreases |s|
  {
    if s != "" && Space(s[0]) {
      SkipTwice(s[1..]);
    }
  }

  lemma {:induction false} DigitsOfDecimal(n: nat, rest: string)
    requires rest == "" || DigitValue(rest[0]).None?
    ensures Digits(0, Decimal(n) + rest) == (n, rest)
  {
    DigitsContinue(0, n, rest);
  }

  /** How many digits shift a number read before n. */
  function Shift(n: nat): nat {
    if n < 10 then 10 else 10 * Shift(n / 10)
  }

  lemma {:induction false} DigitsContinue(read: nat, n: nat, rest: string)
    ensures Digits(read, Decimal(n) + rest) == Digits(read * Shift(n) + n, rest)
    decreases n
  {
    var d := Digit(n % 10);
    if n < 10 {
      assert (Decimal(n) + rest)[1..] == rest;
    } else {
      assert Decimal(n) + rest == Decimal(n / 10) + ([d] + rest);
      DigitsContinue(read, n / 10, [d] + rest);
      assert ([d] + rest)[1..] == rest;
      Shifted(read, n);
    }
  }

  lemma {:induction false} Shifted(read: nat, n: nat)
    requires n >= 10
    ensures 10 * (read * Shift(n / 10) + n / 10) + n % 10 == read * Shift(n) + n
  {
    var shift := Shift(n / 10);
    assert read * (10 * shift) == 10 * (read * shift);
  }

  lemma {:induction false} DecimalStarts(n: nat)
    ensures Decimal(n) != "" && DigitValue(Decimal(n)[0]).Some?
  {
    if n >= 10 {
      DecimalStarts(n / 10);
    }
  }

  /** A later supervisor reads back exactly the process identifier that was recorded. */
  lemma {:induction false} RecordRoundTrip(pid: Pid)
    ensures ParseRecord(RecordText(pid)) == Some(pid)
  {
    var number := Decimal(pid) + "\n";
    DecimalStarts(pid);
    assert RecordText(pid) == PREFIX + number;
    MatchLiteral(PREFIX, number);
    assert SkipSpace(number) == number;
    DigitsOfDecimal(pid, "\n");
    assert SkipSpace("\n") == "" by { assert "\n"[1..] == ""; }
  }

  // ---------------------------------------------------------------------------
  // What a record can look like
  // ---------------------------------------------------------------------------

  predicate Blank(s: string) {
    forall i | 0 <= i < |s| :: Space(s[i])
  }

  predicate AllDigits(s: string) {
    forall i | 0 <= i < |s| :: DigitValue(s[i]).Some?
  }

  /** The number that decimal digits denote. */
  function Value(digits: string): nat
    requires AllDigits(digits)
  {
    if digits == "" then 0
    else 10 * Value(digits[..|digits| - 1]) + DigitValue(digits[|digits| - 1]).value
  }

  /** The three words, a number with an optional sign, and white space around them. */
  datatype Pieces = Pieces(gap1: string, gap2: string, gap3: string, sign: string, digits: string, end: string)

  function Signed(sign: string, digits: string): int
    requires AllDigits(digits)
  {
    var value: int := Value(digits);
    if sign == "-" then -value else value
  }

  predicate IsNumber(sign: string, digits: string, end: string) {
    && (sign == "" || sign == "+" || sign == "-") && digits != "" && AllDigits(digits) && Blank(end)
  }

  predicate Composes(text: string, p: Pieces) {
    && text == Words(FIRST, p.gap1, SECOND_WORD, p.gap2, THIRD, p.gap3, p.sign + p.digits + p.end)
    && Blank(p.gap1) && Blank(p.gap2) && Blank(p.gap3) && IsNumber(p.sign, p.digits, p.end)
  }

  function Words(w1: string, gap1: string, w2: string, gap2: string, w3: string, gap3: string, rest: string): string {
    w1 + (gap1 + (w2 + (gap2 + (w3 + (gap3 + rest)))))
  }

  /** The text is a record of this process. */
  ghost predicate Names(text: string, pid: Pid) {
    exists p :: Composes(text, p) && pid == Signed(p.sign, p.digits)
  }

  /** White space at the start of a text, and the rest. */
  lemma {:induction false} SkipSplits(s: string) returns (blank: string)
    ensures Blank(blank) && s == blank + SkipSpace(s) && (SkipSpace(s) != "" ==> !Space(SkipSpace(s)[0]))
    decreases |s|
  {
    blank := "";
    if s != "" && Space(s[0]) {
      var more := SkipSplits(s[1..]);
      blank := [s[0]] + more;
    }
  }

  lemma {:induction false} SkipBlank(blank: string, s: string)
    requires Blank(blank) && (s != "" ==> !Space(s[0]))
    ensures SkipSpace(blank + s) == s
    decreases |blank|
  {
    if blank == "" {
      assert blank + s == s;
    } else {
      assert (blank + s)[1..] == blank[1..] + s;
      SkipBlank(blank[1..], s);
    }
  }

  /** A word of a format is matched literally. */
  lemma {:induction false} WordMatches(word: string, format: string, s: string)
    requires forall i | 0 <= i < |word| :: !Space(word[i])
    ensures Match(word + format, s) == if word <= s then Match(format, s[|word|..]) else None
    decreases |word|
  {
    if word == "" {
      assert word + format == format && s[0..] == s;
    } else {
      assert (word + format)[1..] == word[1..] + format;
      if s != "" && s[0] == word[0] {
        WordMatches(word[1..], format, s[1..]);
        assert word <= s <==> word[1..] <= s[1..];
        if word <= s {
          assert s[1..][|word| - 1..] == s[|word|..];
        }
      }
    }
  }

  predicate Word(w: string) {
    w != "" && forall i | 0 <= i < |w| :: !Space(w[i])
  }

  /** A word and a space of the format, and the white space after the word in the text. */
  lemma {:induction false} WordAndGap(word: string, format: string, s: string)
    requires Word(word)
    ensures Match(word + " " + format, s) == if word <= s then Match(format, SkipSpace(s[|word|..])) else None
  {
    assert word + " " + format == word + (" " + format);
    WordMatches(word, " " + format, s);
    assert (" " + format)[1..] == format;
  }

  /** The rest of a text after three words, each with white space after it. */
  function AfterWords(w1: string, w2: string, w3: string, s: string): Option<string> {
    if w1 <= s then
      var a := SkipSpace(s[|w1|..]);
      if w2 <= a then
        var b := SkipSpace(a[|w2|..]);
        if w3 <= b then Some(SkipSpace(b[|w3|..])) else None
      else None
    else None
  }

  /** What the words of a format match. */
  lemma {:induction false} WordsMatch(w1: string, w2: string, w3: string, s: string)
    requires Word(w1) && Word(w2) && Word(w3)
    ensures Match(w1 + " " + (w2 + " " + (w3 + " ")), s) == AfterWords(w1, w2, w3, s)
  {
    hide SkipSpace, Match;
    assert w3 + " " == w3 + " " + "";
    WordAndGap(w1, w2 + " " + (w3 + " "), s);
    if w1 <= s {
      var a := SkipSpace(s[|w1|..]);
      WordAndGap(w2, w3 + " ", a);
      if w2 <= a {
        WordAndGap(w3, "", SkipSpace(a[|w2|..]));
        var b := SkipSpace(a[|w2|..]);
        if w3 <= b {
          NothingMatches(SkipSpace(b[|w3|..]));
        }
      }
    }
  }

  lemma {:induction false} NothingMatches(s: string)
    ensures Match("", s) == Some(s)
  {
  }

  lemma {:induction false} WordsSplit(w1: string, w2: string, w3: string, s: string)
    returns (gap1: string, gap2: string, gap3: string)
    requires AfterWords(w1, w2, w3, s).Some?
    ensures Blank(gap1) && Blank(gap2) && Blank(gap3)
    ensures var rest := AfterWords(w1, w2, w3, s).value;
            s == Words(w1, gap1, w2, gap2, w3, gap3, rest) && (rest != "" ==> !Space(rest[0]))
  {
    hide SkipSpace, Blank;
    var a := SkipSpace(s[|w1|..]);
    var b := SkipSpace(a[|w2|..]);
    gap1 := SkipSplits(s[|w1|..]);
    gap2 := SkipSplits(a[|w2|..]);
    gap3 := SkipSplits(b[|w3|..]);
    assert b == w3 + b[|w3|..] && a == w2 + a[|w2|..] && s == w1 + s[|w1|..];
  }

  lemma {:induction false} WordsJoin(w1: string, gap1: string, w2: string, gap2: string, w3: string, gap3: string,
                                     rest: string)
    requires Word(w1) && Word(w2) && Word(w3) && Blank(gap1) && Blank(gap2) && Blank(gap3)
    requires rest != "" ==> !Space(rest[0])
    ensures AfterWords(w1, w2, w3, Words(w1, gap1, w2, gap2, w3, gap3, rest)) == Some(rest)
  {
    hide SkipSpace, Blank;
    var c := w3 + (gap3 + rest);
    var b := w2 + (gap2 + c);
    var s := w1 + (gap1 + b);
    assert s[|w1|..] == gap1 + b && b[|w2|..] == gap2 + c && c[|w3|..] == gap3 + rest;
    SkipBlank(gap1, b);
    SkipBlank(gap2, c);
    SkipBlank(gap3, rest);
  }

  /** The digits at the start of a text, and the rest. */
  lemma {:induction false} DigitsSplit(before: string, s: string) returns (digits: string)
    requires AllDigits(before)
    ensures AllDigits(digits) && AllDigits(before + digits) && digits <= s
    ensures Digits(Value(before), s) == (Value(before + digits), s[|digits|..])
    ensures s != "" && DigitValue(s[0]).Some? ==> digits != ""
    ensures |digits| < |s| ==> DigitValue(s[|digits|]).None?
    decreases |s|
  {
    if s != "" && DigitValue(s[0]).Some? {
      var longer := before + [s[0]];
      assert longer[..|longer| - 1] == before;
      var more := DigitsSplit(longer, s[1..]);
      digits := [s[0]] + more;
      assert longer + more == before + digits;
      assert s[1..][|more|..] == s[|digits|..];
    } else {
      digits := "";
      assert before + "" == before && s[0..] == s;
    }
  }

  lemma {:induction false} DigitsAll(before: string, digits: string, rest: string)
    requires AllDigits(before) && AllDigits(digits) && (rest != "" ==> DigitValue(rest[0]).None?)
    ensures AllDigits(before + digits) && Digits(Value(before), digits + rest) == (Value(before + digits), rest)
    decreases |digits|
  {
    if digits == "" {
      assert digits + rest == rest && before + digits == before;
    } else {
      var longer := before + [digits[0]];
      assert longer[..|longer| - 1] == before;
      assert (digits + rest)[1..] == digits[1..] + rest;
      DigitsAll(longer, digits[1..], rest);
      assert longer + digits[1..] == before + digits;
    }
  }

  lemma {:induction false} UnsignedSplits(u: string) returns (digits: string, end: string)
    requires u != "" && DigitValue(u[0]).Some? && SkipSpace(Digits(0, u).1) == ""
    ensures digits != "" && AllDigits(digits) && Blank(end) && u == digits + end && Digits(0, u).0 == Value(digits)
  {
    hide Digits, SkipSpace, Blank;
    digits := DigitsSplit("", u);
    assert "" + digits == digits && Value("") == 0;
    end := SkipSplits(u[|digits|..]);
    assert end + "" == end;
    assert u == digits + u[|digits|..];
  }

  /** A number is read exactly if it is one with blanks at most after it. */
  lemma {:induction false} NumberSplits(t: string) returns (sign: string, digits: string, end: string)
    requires t != "" ==> !Space(t[0])
    requires Number(t).Some? && SkipSpace(Number(t).value.1) == ""
    ensures IsNumber(sign, digits, end) && t == sign + digits + end && Number(t).value.0 == Signed(sign, digits)
  {
    assert SkipSpace(t) == t;
    hide Digits, SkipSpace, Blank, AllDigits, Value;
    if t != "" && (t[0] == '-' || t[0] == '+') {
      sign := [t[0]];
      digits, end := UnsignedSplits(t[1..]);
      assert t == [t[0]] + t[1..];
      assert t == sign + (digits + end);
    } else {
      sign := "";
      digits, end := UnsignedSplits(t);
      assert sign + digits == digits;
    }
  }

  lemma {:induction false} NumberRead(sign: string, digits: string, end: string)
    requires IsNumber(sign, digits, end)
    ensures Number(sign + digits + end) == Some((Signed(sign, digits), end)) && SkipSpace(end) == ""
    ensures sign + digits + end != "" && !Space((sign + digits + end)[0])
  {
    var t := sign + digits + end;
    assert t[0] == if sign == "" then digits[0] else sign[0];
    SkipBlank("", t);
    assert "" + t == t;
    assert (if sign == "" then t else t[1..]) == digits + end;
    DigitsAll("", digits, end);
    assert "" + digits == digits;
    SkipBlank(end, "");
    assert end + "" == end;
  }

  lemma {:induction false} WordsAreWords()
    ensures Word(FIRST) && Word(SECOND_WORD) && Word(THIRD)
  {
  }

  /** Only records are read as records. */
  lemma {:induction false} ParsedIsNamed(text: string)
    ensures ParseRecord(text).Some? ==> Names(text, ParseRecord(text).value)
  {
    hide Match, AfterWords, Words, Number, SkipSpace, Blank, IsNumber, FIRST, SECOND_WORD, THIRD;
    WordsAreWords();
    WordsMatch(FIRST, SECOND_WORD, THIRD, text);
    if ParseRecord(text).Some? {
      var gap1, gap2, gap3 := WordsSplit(FIRST, SECOND_WORD, THIRD, text);
      var sign, digits, end := NumberSplits(AfterWords(FIRST, SECOND_WORD, THIRD, text).value);
      assert Composes(text, Pieces(gap1, gap2, gap3, sign, digits, end));
    }
  }

  /** Every record is read, as the process it names. */
  lemma {:induction false} NamedIsParsed(text: string, pid: Pid)
    requires Names(text, pid)
    ensures ParseRecord(text) == Some(pid)
  {
    var p :| Composes(text, p) && pid == Signed(p.sign, p.digits);
    hide Match, AfterWords, Words, Number, SkipSpace, Blank, IsNumber, FIRST, SECOND_WORD, THIRD;
    WordsAreWords();
    WordsMatch(FIRST, SECOND_WORD, THIRD, text);
    NumberRead(p.sign, p.digits, p.end);
    WordsJoin(FIRST, p.gap1, SECOND_WORD, p.gap2, THIRD, p.gap3, p.sign + p.digits + p.end);
  }

  /** Exactly the texts made of the three words and one number in range are records, of
      the process with that number, whatever white space stands around them.
   */
  lemma {:induction false} ParsesExactly(text: string, pid: Pid)
    ensures ParseRecord(text) == Some(pid) <==> Names(text, pid)
  {
    hide ParseRecord, Names;
    ParsedIsNamed(text);
    if Names(text, pid) {
      NamedIsParsed(text, pid);
    }
  }

  function Power10(digits: nat): nat {
    if digits == 0 then 1 else 10 * Power10(digits - 1)
  }

  lemma {:induction false} DecimalLength(n: nat, digits: nat)
    requires digits > 0 && n < Power10(digits)
    ensures 0 < |Decimal(n)| <= digits
  {
    if n >= 10 {
      DecimalLength(n / 10, digits - 1);
    }
  }

  /** The record fits the buffer it is composed in. */
  lemma {:induction false} RecordFitsBuffer(pid: Pid)
    ensures 0 < |RecordText(pid)| <= 32
  {
    assert Power10(10) == 10_000_000_000;
    DecimalLength(pid, 10);
  }
}
