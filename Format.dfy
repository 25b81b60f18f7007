/** The texts the bridge produces: the decimal rendering of a counter value
    (Python's `str` on a non-negative int), the acknowledgement sent back to
    the broker, and the payload pushed to every listener. Each text comes with
    a parser, and the round-trip lemmas show that the texts carry their
    values unambiguously. */
module Format {

  datatype Option<T> = None | Some(value: T)

  /** Common head of the acknowledgement and of the pushed payload. */
  const Prefix: string := "Messages received: "
  /** Separator between the message and its sequence number in a push. */
  const SequenceTag: string := ", sequence: "

  predicate IsDigit(c: char) {
    '0' <= c <= '9'
  }

  predicate AllDigits(s: string) {
    forall i :: 0 <= i < |s| ==> IsDigit(s[i])
  }

  /** A decimal numeral as Python prints one: at least one digit, and no
      leading zero unless the numeral is "0" itself. */
  predicate IsCanonical(s: string) {
    |s| >= 1 && AllDigits(s) && (s[0] == '0' ==> |s| == 1)
  }

  function DigitChar(d: nat): (c: char)
    requires d < 10
    ensures IsDigit(c)
  {
    ('0' as int + d) as char
  }

  function DigitValue(c: char): (d: nat)
    requires IsDigit(c)
    ensures d < 10 && DigitChar(d) == c
  {
    c as int - '0' as int
  }

  /** `str(n)` for a non-negative integer `n`. */
  function Decimal(n: nat): (s: string)
    ensures IsCanonical(s)
    ensures s[0] == '0' <==> n == 0
  {
    if n < 10 then [DigitChar(n)] else Decimal(n / 10) + [DigitChar(n % 10)]
  }

  /** The number a string of digits denotes. */
  function Value(s: string): (n: nat)
    requires AllDigits(s)
  {
    if s == [] then 0 else Value(s[..|s| - 1]) * 10 + DigitValue(s[|s| - 1])
  }

  lemma {:induction false} ValueOfDecimal(n: nat)
    ensures Value(Decimal(n)) == n
  {
    if n >= 10 {
      var s := Decimal(n);
      assert s[..|s| - 1] == Decimal(n / 10);
      ValueOfDecimal(n / 10);
      assert DigitValue(s[|s| - 1]) == n % 10;
    }
  }

  lemma {:induction false} LeadingDigitPositive(s: string)
    requires AllDigits(s) && |s| >= 1 && s[0] != '0'
    ensures Value(s) >= 1
  {
    if |s| > 1 {
      LeadingDigitPositive(s[..|s| - 1]);
    }
  }

  lemma DivModTen(q: nat, d: nat)
    requires d < 10
    ensures (q * 10 + d) / 10 == q && (q * 10 + d) % 10 == d
  {
  }

  lemma {:induction false} DecimalOfValue(s: string)
    requires IsCanonical(s)
    ensures Decimal(Value(s)) == s
  {
    var init := s[..|s| - 1];
    var d := DigitValue(s[|s| - 1]);
    assert Value(s) == Value(init) * 10 + d;
    DivModTen(Value(init), d);
    if |s| == 1 {
      assert init == [];
    } else {
      assert init[0] == s[0];
      LeadingDigitPositive(init);
      DecimalOfValue(init);
      assert s == init + [s[|s| - 1]];
    }
  }

  /** Distinct counter values are printed differently. */
  lemma DecimalInjective(m: nat, n: nat)
    ensures Decimal(m) == Decimal(n) ==> m == n
  {
    ValueOfDecimal(m);
    ValueOfDecimal(n);
  }

  /** The acknowledgement the broker receives after its `n`-th message. */
  function ReplyText(n: nat): (s: string) {
    Prefix + Decimal(n)
  }

  function ParseReply(s: string): (r: Option<nat>) {
    if |s| >= |Prefix| && s[..|Prefix|] == Prefix && IsCanonical(s[|Prefix|..])
    then Some(Value(s[|Prefix|..]))
    else None
  }

  /** A text parses as an acknowledgement of `n` exactly when it is the
      acknowledgement of `n`. */
  lemma ReplyCodec(s: string, n: nat)
    ensures ParseReply(s) == Some(n) <==> s == ReplyText(n)
  {
    if s == ReplyText(n) {
      assert s[..|Prefix|] == Prefix;
      assert s[|Prefix|..] == Decimal(n);
      ValueOfDecimal(n);
    }
    if ParseReply(s) == Some(n) {
      var rest := s[|Prefix|..];
      DecimalOfValue(rest);
      assert s == s[..|Prefix|] + rest;
    }
  }

  /** The payload pushed to listeners for message `message` with sequence
      number `n`. */
  function NotificationText(message: string, n: nat): (s: string) {
    Prefix + message + SequenceTag + Decimal(n)
  }

  /** Length of the longest all-digit suffix of `s`. */
  function TrailingDigits(s: string): (k: nat)
    ensures k <= |s|
  {
    if s == [] || !IsDigit(s[|s| - 1]) then 0 else TrailingDigits(s[..|s| - 1]) + 1
  }

  lemma {:induction false} TrailingDigitsOf(head: string, digits: string)
    requires |head| >= 1 && !IsDigit(head[|head| - 1]) && AllDigits(digits)
    ensures TrailingDigits(head + digits) == |digits|
  {
    var s := head + digits;
    if digits == [] {
      assert s == head;
    } else {
      assert s[..|s| - 1] == head + digits[..|digits| - 1];
      TrailingDigitsOf(head, digits[..|digits| - 1]);
    }
  }

  /** Splits a pushed payload back into its message and sequence number. The
      sequence number is the all-digit tail, so a message that itself contains
      the separator is still recovered intact. */
  function ParseNotification(s: string): (r: Option<(string, nat)>) {
    var k := TrailingDigits(s);
    var head := s[..|s| - k];
    var tail := s[|s| - k..];
    if |head| >= |Prefix| + |SequenceTag|
       && head[..|Prefix|] == Prefix
       && head[|head| - |SequenceTag|..] == SequenceTag
       && IsCanonical(tail)
    then Some((head[|Prefix|..|head| - |SequenceTag|], Value(tail)))
    else None
  }

  /** A push parses back to the message and sequence number it was made of. */
  lemma NotificationRoundTrip(message: string, n: nat)
    ensures ParseNotification(NotificationText(message, n)) == Some((message, n))
  {
    var s := NotificationText(message, n);
    var head := Prefix + message + SequenceTag;
    assert s == head + Decimal(n);
    TrailingDigitsOf(head, Decimal(n));
    assert s[..|s| - |Decimal(n)|] == head;
    assert s[|s| - |Decimal(n)|..] == Decimal(n);
    assert head[..|Prefix|] == Prefix;
    assert head[|head| - |SequenceTag|..] == SequenceTag;
    assert head[|Prefix|..|head| - |SequenceTag|] == message;
    ValueOfDecimal(n);
  }

  /** Only the push of `(message, n)` parses to `(message, n)`. */
  lemma NotificationParsesOnlyPushes(s: string, message: string, n: nat)
    requires ParseNotification(s) == Some((message, n))
    ensures s == NotificationText(message, n)
  {
    var k := TrailingDigits(s);
    var head := s[..|s| - k];
    var tail := s[|s| - k..];
    assert tail == Decimal(n) by {
      DecimalOfValue(tail);
    }
    assert head == Prefix + message + SequenceTag by {
      Between(head, Prefix, SequenceTag);
    }
    assert s == head + tail;
  }

  /** A string that starts with `front` and ends with `back`, not overlapping,
      is `front`, what lies between, and `back`. */
  lemma Between(s: string, front: string, back: string)
    requires |s| >= |front| + |back|
    requires s[..|front|] == front && s[|s| - |back|..] == back
    ensures s == front + s[|front|..|s| - |back|] + back
  {
  }

  /** A text parses as the push of `(message, n)` exactly when it is that push. */
  lemma NotificationCodec(s: string, message: string, n: nat)
    ensures ParseNotification(s) == Some((message, n)) <==> s == NotificationText(message, n)
  {
    if s == NotificationText(message, n) {
      NotificationRoundTrip(message, n);
    }
    if ParseNotification(s) == Some((message, n)) {
      NotificationParsesOnlyPushes(s, message, n);
    }
  }

  /** Different messages or sequence numbers never produce the same push. */
  lemma NotificationInjective(m1: string, n1: nat, m2: string, n2: nat)
    requires NotificationText(m1, n1) == NotificationText(m2, n2)
    ensures m1 == m2 && n1 == n2
  {
    NotificationCodec(NotificationText(m1, n1), m1, n1);
    NotificationCodec(NotificationText(m1, n1), m2, n2);
  }
}
