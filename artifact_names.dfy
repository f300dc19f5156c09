/** The names the two outputs are published under (lines 161-163): a UTC
    timestamp formatted with `%Y%m%d-%H%M%S`, inside a fixed prefix and
    extension per artifact. The clock reading is an input. */
module ArtifactNames {
  import opened Wrappers

  /** A reading of `datetime.utcnow()`, down to the second. */
  datatype DateTime = DateTime(year: nat, month: nat, day: nat, hour: nat, minute: nat, second: nat)

  /** The ranges Python's `datetime` guarantees for its fields. */
  predicate ValidDateTime(t: DateTime) {
    1 <= t.year <= 9999 && 1 <= t.month <= 12 && 1 <= t.day <= 31
    && t.hour < 24 && t.minute < 60 && t.second < 60
  }

  const ReportPrefix := "CJ_Report_"
  const ReportSuffix := ".pdf"
  const NarrativePrefix := "CJ_Narrative_"
  const NarrativeSuffix := ".docx"

  function Pow10(w: nat): (p: nat)
    ensures p >= 1
  {
    if w == 0 then 1 else 10 * Pow10(w - 1)
  }

  predicate IsDigit(c: char) {
    '0' <= c <= '9'
  }

  function DigitChar(d: nat): char
    requires d < 10
  {
    ('0' as int + d) as char
  }

  /** The last `w` decimal digits of `n`, zero-padded: `%0wd` for `n < 10^w`. */
  function Digits(n: nat, w: nat): (s: string)
    ensures |s| == w
    ensures forall i :: 0 <= i < |s| ==> IsDigit(s[i])
  {
    if w == 0 then [] else Digits(n / 10, w - 1) + [DigitChar(n % 10)]
  }

  function DigitValue(c: char): nat
    requires IsDigit(c)
  {
    c as int - '0' as int
  }

  /** The number a string of decimal digits spells. */
  function ParseDigits(s: string): nat
    requires forall i :: 0 <= i < |s| ==> IsDigit(s[i])
  {
    if s == [] then 0 else 10 * ParseDigits(s[..|s| - 1]) + DigitValue(s[|s| - 1])
  }

  /** Reading back `w` padded digits of a number below `10^w` gives it back. */
  lemma {:induction false} ParseDigitsExact(n: nat, w: nat)
    requires n < Pow10(w)
    ensures ParseDigits(Digits(n, w)) == n
  {
    if w > 0 {
      var s := Digits(n, w);
      assert s[..|s| - 1] == Digits(n / 10, w - 1);
      assert (n / 10) * 10 <= n;
      assert n / 10 < Pow10(w - 1);
      ParseDigitsExact(n / 10, w - 1);
    }
  }

  /** `t.strftime("%Y%m%d-%H%M%S")` */
  function Timestamp(t: DateTime): (s: string)
    ensures |s| == 15 && s[8] == '-'
    ensures forall i :: 0 <= i < 15 && i != 8 ==> IsDigit(s[i])
  {
    Digits(t.year, 4) + Digits(t.month, 2) + Digits(t.day, 2) + "-"
    + Digits(t.hour, 2) + Digits(t.minute, 2) + Digits(t.second, 2)
  }

  predicate AllDigits(s: string) {
    forall i :: 0 <= i < |s| ==> IsDigit(s[i])
  }

  /** Reads a clock reading back out of a timestamp. */
  function ParseTimestamp(s: string): Option<DateTime> {
    if |s| != 15 || s[8] != '-' || !AllDigits(s[..8]) || !AllDigits(s[9..]) then None
    else
      Some(DateTime(ParseDigits(s[..4]), ParseDigits(s[4..6]), ParseDigits(s[6..8]),
                    ParseDigits(s[9..11]), ParseDigits(s[11..13]), ParseDigits(s[13..])))
  }

  /** The timestamp determines the clock reading it was made from. */
  lemma TimestampRoundTrip(t: DateTime)
    requires ValidDateTime(t)
    ensures ParseTimestamp(Timestamp(t)) == Some(t)
  {
    var s := Timestamp(t);
    assert s[..4] == Digits(t.year, 4);
    assert s[4..6] == Digits(t.month, 2);
    assert s[6..8] == Digits(t.day, 2);
    assert s[9..11] == Digits(t.hour, 2);
    assert s[11..13] == Digits(t.minute, 2);
    assert s[13..] == Digits(t.second, 2);
    assert Pow10(2) == 100 && Pow10(4) == 10000;
    ParseDigitsExact(t.year, 4);
    ParseDigitsExact(t.month, 2);
    ParseDigitsExact(t.day, 2);
    ParseDigitsExact(t.hour, 2);
    ParseDigitsExact(t.minute, 2);
    ParseDigitsExact(t.second, 2);
  }

  /** Different clock readings give different timestamps. */
  lemma TimestampInjective(t: DateTime, u: DateTime)
    requires ValidDateTime(t) && ValidDateTime(u) && Timestamp(t) == Timestamp(u)
    ensures t == u
  {
    TimestampRoundTrip(t);
    TimestampRoundTrip(u);
  }

  /** `f"CJ_Report_{ts}.pdf"` */
  function ReportName(ts: string): string {
    ReportPrefix + ts + ReportSuffix
  }

  /** `f"CJ_Narrative_{ts}.docx"` */
  function NarrativeName(ts: string): string {
    NarrativePrefix + ts + NarrativeSuffix
  }

  /** The timestamp sits between the prefix and the extension. */
  lemma NamesCarryTimestamp(ts: string)
    ensures var r := ReportName(ts);
      && |r| == |ReportPrefix| + |ts| + |ReportSuffix|
      && r[|ReportPrefix|..|ReportPrefix| + |ts|] == ts
    ensures var d := NarrativeName(ts);
      && |d| == |NarrativePrefix| + |ts| + |NarrativeSuffix|
      && d[|NarrativePrefix|..|NarrativePrefix| + |ts|] == ts
  {
  }

  /** A report name and a narrative name never coincide, whatever the two
      timestamps. */
  lemma NamesDistinct(ts: string, ts': string)
    ensures ReportName(ts) != NarrativeName(ts')
  {
    assert ReportName(ts)[3] == 'R';
    assert NarrativeName(ts')[3] == 'N';
  }

  /** Different timestamps give different names. */
  lemma NamesInjective(ts: string, ts': string)
    ensures ReportName(ts) == ReportName(ts') ==> ts == ts'
    ensures NarrativeName(ts) == NarrativeName(ts') ==> ts == ts'
  {
    NamesCarryTimestamp(ts);
    NamesCarryTimestamp(ts');
  }
}
