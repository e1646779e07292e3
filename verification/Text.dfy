/** The string operations of the Go standard library that the package relies on. */
module Text {

  // ---- Decimal printing (%d of a non-negative integer) ----

  const DIGITS := "0123456789"

  function Decimal(n: nat): (s: string)
    ensures s != []
  {
    if n < 10 then [DIGITS[n]] else Decimal(n / 10) + [DIGITS[n % 10]]
  }

  function DigitValue(c: char): nat {
    if '0' <= c <= '9' then c as int - '0' as int else 0
  }

  function Number(s: string): nat {
    if s == [] then 0 else 10 * Number(s[..|s| - 1]) + DigitValue(s[|s| - 1])
  }

  lemma {:induction false} DecimalReadsBack(n: nat)
    ensures Number(Decimal(n)) == n
    ensures forall c :: c in Decimal(n) ==> '0' <= c <= '9'
  {
    if n < 10 {
      assert Number([DIGITS[n]]) == 10 * Number([]) + DigitValue(DIGITS[n]);
    } else {
      DecimalReadsBack(n / 10);
      var s := Decimal(n);
      assert s[..|s| - 1] == Decimal(n / 10);
    }
  }

  // ---- strings.Contains ----

  predicate Contains(s: string, sub: string)
    decreases |s|
  {
    sub <= s || (s != "" && Contains(s[1..], sub))
  }

  /** Ten digits, the last one printed last. */
  lemma DecimalDigits(n: nat)
    ensures if n < 10 then Decimal(n) == ['0' + n as char] else Decimal(n) == Decimal(n / 10) + Decimal(n % 10)
  {
  }

  /** `sub` stands somewhere in `s`. */
  ghost predicate StandsIn(s: string, sub: string) {
    exists before: string, after: string :: s == before + sub + after
  }

  lemma {:induction false} ContainsMeans(s: string, sub: string)
    ensures Contains(s, sub) <==> StandsIn(s, sub)
    decreases |s|
  {
    if sub <= s {
      assert s == "" + sub + s[|sub|..];
    } else if s != "" {
      ContainsMeans(s[1..], sub);
      if StandsIn(s[1..], sub) {
        var before: string, after: string :| s[1..] == before + sub + after;
        assert s == [s[0]] + before + sub + after;
      }
      if StandsIn(s, sub) {
        var before: string, after: string :| s == before + sub + after;
        assert before != "";
        assert s[1..] == before[1..] + sub + after;
      }
    }
  }

  // ---- strings.Join and strings.Split with a one-character separator ----

  function Join(parts: seq<string>, sep: char): string {
    if parts == [] then ""
    else if |parts| == 1 then parts[0]
    else parts[0] + [sep] + Join(parts[1..], sep)
  }

  /** One part more comes behind the separator. */
  lemma {:induction false} JoinOneMore(parts: seq<string>, part: string, sep: char)
    ensures Join(parts + [part], sep) == if parts == [] then part else Join(parts, sep) + [sep] + part
    decreases |parts|
  {
    if parts != [] {
      assert (parts + [part])[1..] == parts[1..] + [part];
      JoinOneMore(parts[1..], part, sep);
    }
  }

  /** Split never returns an empty list. */
  function Split(s: string, sep: char): (parts: seq<string>)
    ensures parts != []
  {
    if s == "" then [""]
    else
      var rest := Split(s[1..], sep);
      if s[0] == sep then [""] + rest else [[s[0]] + rest[0]] + rest[1..]
  }

  lemma {:induction false} SplitWithoutSeparator(s: string, sep: char)
    requires sep !in s
    ensures Split(s, sep) == [s]
  {
    if s != "" {
      SplitWithoutSeparator(s[1..], sep);
      assert [s[0]] + s[1..] == s;
    }
  }

  lemma {:induction false} SplitAtFirst(head: string, tail: string, sep: char)
    requires sep !in head
    ensures Split(head + [sep] + tail, sep) == [head] + Split(tail, sep)
  {
    var s := head + [sep] + tail;
    if head == "" {
      assert s[1..] == tail;
    } else {
      assert s[1..] == head[1..] + [sep] + tail;
      SplitAtFirst(head[1..], tail, sep);
      assert [head[0]] + head[1..] == head;
    }
  }

  /** No part that Split returns contains the separator. */
  lemma {:induction false} SplitPartsAreClean(s: string, sep: char)
    ensures forall part :: part in Split(s, sep) ==> sep !in part
  {
    if s != "" {
      SplitPartsAreClean(s[1..], sep);
      var rest := Split(s[1..], sep);
      assert rest[0] in rest;
      assert forall part :: part in rest[1..] ==> part in rest;
    }
  }

  lemma {:induction false} SplitJoin(parts: seq<string>, sep: char)
    requires parts != []
    requires forall part :: part in parts ==> sep !in part
    ensures Split(Join(parts, sep), sep) == parts
    decreases |parts|
  {
    assert parts[0] in parts;
    if |parts| == 1 {
      SplitWithoutSeparator(parts[0], sep);
    } else {
      SplitJoin(parts[1..], sep);
      SplitAtFirst(parts[0], Join(parts[1..], sep), sep);
    }
  }

  /** Splitting undoes joining exactly when no part contains the separator. */
  lemma JoinRoundTrip(parts: seq<string>, sep: char)
    requires parts != []
    ensures Split(Join(parts, sep), sep) == parts <==> forall part :: part in parts ==> sep !in part
  {
    SplitPartsAreClean(Join(parts, sep), sep);
    if forall part :: part in parts ==> sep !in part {
      SplitJoin(parts, sep);
    }
  }
}
