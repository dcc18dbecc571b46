/** The string formatting of src/utils/formatter.ts: backend timestamps to grid
    tokens, and calendar dates to the text the backend expects. The host `Date`
    object is replaced by its parts: the year, the zero-based month index
    (`getMonth()`), the day of the month (`getDate()`) and the text of
    `toString()`. */
module Formatter {

  /** `String.prototype.split` with a one-character separator: the pieces
      between separators, including empty ones, and always at least one. */
  function Split(s: string, sep: char): (r: seq<string>)
    ensures |r| >= 1
    ensures sep in s <==> |r| > 1
  {
    if s == [] then [""]
    else
      var rest := Split(s[1..], sep);
      if s[0] == sep then [""] + rest
      else
        assert s == [s[0]] + s[1..];
        [[s[0]] + rest[0]] + rest[1..]
  }

  /** `Array.prototype.join` with a one-character separator. */
  function Join(parts: seq<string>, sep: char): (r: string)
  {
    if |parts| == 0 then ""
    else if |parts| == 1 then parts[0]
    else parts[0] + [sep] + Join(parts[1..], sep)
  }

  /** No piece holds the separator, the first piece is a prefix of the text,
      and text without the separator is its own single piece. */
  lemma {:induction false} SplitPieces(s: string, sep: char)
    ensures forall k :: 0 <= k < |Split(s, sep)| ==> sep !in Split(s, sep)[k]
    ensures Split(s, sep)[0] <= s
    ensures sep !in s ==> Split(s, sep) == [s]
  {
    if s != [] {
      SplitPieces(s[1..], sep);
      assert s == [s[0]] + s[1..];
    }
  }

  /** Joining the pieces again gives back the original text. */
  lemma {:induction false} SplitJoin(s: string, sep: char)
    ensures Join(Split(s, sep), sep) == s
  {
    if s != [] {
      var rest := Split(s[1..], sep);
      SplitJoin(s[1..], sep);
      if s[0] == sep {
        assert Split(s, sep) == [""] + rest;
        assert ([""] + rest)[1..] == rest;
        assert s == [sep] + s[1..];
      } else if |rest| == 1 {
        assert s == [s[0]] + s[1..];
      } else {
        var r := Split(s, sep);
        assert r[1..] == rest[1..];
        assert s == [s[0]] + s[1..];
      }
    }
  }

  /** Text before the first separator becomes the first piece. */
  lemma {:induction false} SplitAt(a: string, sep: char, b: string)
    requires sep !in a
    ensures Split(a + [sep] + b, sep) == [a] + Split(b, sep)
  {
    var s := a + [sep] + b;
    if a == [] {
      assert s == [sep] + b;
      assert s[1..] == b;
    } else {
      assert s[1..] == a[1..] + [sep] + b;
      SplitAt(a[1..], sep, b);
      assert [a[0]] + a[1..] == a;
    }
  }

  /** Splitting separator-free pieces joined by the separator gives them back. */
  lemma {:induction false} JoinSplit(parts: seq<string>, sep: char)
    requires |parts| >= 1
    requires forall k :: 0 <= k < |parts| ==> sep !in parts[k]
    ensures Split(Join(parts, sep), sep) == parts
  {
    if |parts| == 1 {
      SplitPieces(parts[0], sep);
    } else {
      JoinSplit(parts[1..], sep);
      SplitAt(parts[0], sep, Join(parts[1..], sep));
      assert [parts[0]] + parts[1..] == parts;
    }
  }

  /** The first piece is the text up to the first separator. */
  lemma SplitHead(a: string, sep: char, b: string)
    requires sep !in a
    requires b == [] || b[0] == sep
    ensures Split(a + b, sep)[0] == a
  {
    if b == [] {
      assert a + b == a;
      SplitPieces(a, sep);
    } else {
      SplitAt(a, sep, b[1..]);
      assert a + b == a + [sep] + b[1..];
    }
  }

  /** `formatTimeStr`: the piece after the first 'T', cut at its first '.'.
      Text without a 'T' makes the source index past the pieces and throw,
      so callers must supply one. */
  function FormatTimeStr(time: string): (r: string)
    requires 'T' in time
    ensures 'T' !in r && '.' !in r
  {
    SplitPieces(time, 'T');
    var segment := Split(time, 'T')[1];
    var r := Split(segment, '.')[0];
    SplitPieces(segment, '.');
    assert forall k :: 0 <= k < |r| ==> r[k] == segment[k];
    r
  }

  /** For `pre + "T" + segment + rest`, where `pre` and `segment` hold no 'T'
      and `rest` is empty or starts at the next 'T', and `segment` is `hms`
      followed by nothing or by a part that starts with '.', the result is
      `hms`; with no '.' in `segment` that is the whole segment. */
  lemma FormatTimeStrParts(pre: string, segment: string, rest: string, hms: string, fraction: string)
    requires 'T' !in pre && 'T' !in segment
    requires rest == [] || rest[0] == 'T'
    requires segment == hms + fraction
    requires '.' !in hms
    requires fraction == [] || fraction[0] == '.'
    ensures 'T' in pre + "T" + segment + rest
    ensures FormatTimeStr(pre + "T" + segment + rest) == hms
  {
    var time := pre + "T" + segment + rest;
    assert time == pre + ['T'] + (segment + rest);
    assert time[|pre|] == 'T';
    SplitAt(pre, 'T', segment + rest);
    SplitHead(segment, 'T', rest);
    SplitHead(hms, '.', fraction);
  }

  /** A backend timestamp `<date>T<clock>.000Z` becomes the grid token `<clock>`. */
  lemma FormatTimeStrBackend(date: string, clock: string)
    requires 'T' !in date && 'T' !in clock && '.' !in clock
    ensures 'T' in date + "T" + clock + ".000Z"
    ensures FormatTimeStr(date + "T" + clock + ".000Z") == clock
  {
    FormatTimeStrParts(date, clock + ".000Z", "", clock, ".000Z");
    assert date + "T" + (clock + ".000Z") + "" == date + "T" + clock + ".000Z";
  }

  /** `2024-01-01T08:30:00.000Z` becomes `08:30:00`. */
  lemma FormatTimeStrExample()
    ensures 'T' in "2024-01-01T08:30:00.000Z"
    ensures FormatTimeStr("2024-01-01T08:30:00.000Z") == "08:30:00"
  {
    FormatTimeStrBackend("2024-01-01", "08:30:00");
    assert "2024-01-01" + "T" + "08:30:00" + ".000Z" == "2024-01-01T08:30:00.000Z";
  }

  /** The decimal digit `d`. */
  function DigitChar(d: int): (c: char)
    requires 0 <= d < 10
    ensures '0' <= c <= '9'
  {
    ('0' as int + d) as char
  }

  predicate IsDigits(s: string)
  {
    forall k :: 0 <= k < |s| ==> '0' <= s[k] <= '9'
  }

  /** The decimal text of a non-negative number, as string conversion writes it. */
  function NatToString(n: nat): (r: string)
    ensures |r| >= 1 && IsDigits(r)
    ensures |r| == 1 <==> n < 10
  {
    if n < 10 then [DigitChar(n)] else NatToString(n / 10) + [DigitChar(n % 10)]
  }

  /** The decimal text of an integer, with a leading '-' when it is negative. */
  function IntToString(i: int): (r: string)
  {
    if i < 0 then "-" + NatToString(-i) else NatToString(i)
  }

  /** The number a digit string stands for. */
  function ParseNat(s: string): (r: nat)
    requires IsDigits(s)
  {
    if s == [] then 0
    else ParseNat(s[..|s| - 1]) * 10 + (s[|s| - 1] as int - '0' as int)
  }

  /** Reading the decimal text back gives the number. */
  lemma {:induction false} ParseNatToString(n: nat)
    ensures ParseNat(NatToString(n)) == n
  {
    if n >= 10 {
      ParseNatToString(n / 10);
      var s := NatToString(n);
      assert s[..|s| - 1] == NatToString(n / 10);
    }
  }

  /** The month as `formatDateStr` writes it: two digits below 10 by a leading
      "0", the plain number otherwise. */
  function MonthText(month: int): (r: string)
  {
    if month < 10 then "0" + IntToString(month) else IntToString(month)
  }

  /** `formatDateStr`: year, one-based month and day joined by '-'; the month
      is padded below 10, the day never. */
  function FormatDateStr(year: int, monthIndex: int, day: int): (r: string)
  {
    IntToString(year) + "-" + MonthText(monthIndex + 1) + "-" + IntToString(day)
  }

  /** A digit string holds no '-'. */
  lemma DigitsHaveNoDash(s: string)
    requires IsDigits(s)
    ensures '-' !in s
  {
  }

  /** Every month of the year is written with exactly two digits. */
  lemma MonthTextTwoDigits(month: int)
    requires 1 <= month <= 12
    ensures IsDigits(MonthText(month)) && |MonthText(month)| == 2
    ensures ParseNat(MonthText(month)) == month
  {
    var m := MonthText(month);
    if month < 10 {
      assert m == ['0', DigitChar(month)];
      assert m[..1] == "0" && ParseNat("0") == 0;
    } else {
      assert m == NatToString(month);
      ParseNatToString(month);
    }
  }

  /** For a real calendar date the text splits on '-' into exactly three
      fields that read back as the year, the one-based month and the day; the
      month field always has two digits and the day field is the unpadded
      decimal text of the day. */
  lemma FormatDateStrFields(year: nat, monthIndex: int, day: nat)
    requires 0 <= monthIndex < 12
    ensures var f := Split(FormatDateStr(year, monthIndex, day), '-');
      |f| == 3 && IsDigits(f[0]) && IsDigits(f[1]) && IsDigits(f[2]) &&
      ParseNat(f[0]) == year && ParseNat(f[1]) == monthIndex + 1 && ParseNat(f[2]) == day &&
      |f[1]| == 2 && f[2] == NatToString(day)
  {
    var y, m, d := NatToString(year), MonthText(monthIndex + 1), NatToString(day);
    MonthTextTwoDigits(monthIndex + 1);
    DigitsHaveNoDash(y);
    DigitsHaveNoDash(m);
    DigitsHaveNoDash(d);
    FormatDateStrIsJoin(year, monthIndex, day);
    JoinSplit([y, m, d], '-');
    ParseNatToString(year);
    ParseNatToString(day);
  }

  /** The date text is the year, the month and the day texts joined by '-'. */
  lemma FormatDateStrIsJoin(year: int, monthIndex: int, day: int)
    ensures FormatDateStr(year, monthIndex, day)
            == Join([IntToString(year), MonthText(monthIndex + 1), IntToString(day)], '-')
  {
    var y, m, d := IntToString(year), MonthText(monthIndex + 1), IntToString(day);
    var parts := [y, m, d];
    assert parts[1..] == [m, d] && [m, d][1..] == [d];
    assert Join([d], '-') == d;
    assert Join([m, d], '-') == m + ['-'] + d;
    assert Join(parts, '-') == y + ['-'] + Join([m, d], '-');
  }

  /** The fifth May of 2024 is `2024-05-5`, the day left unpadded. */
  lemma FormatDateStrExample()
    ensures FormatDateStr(2024, 4, 5) == "2024-05-5"
  {
  }

  /** `formatDateTimeStr`: the date text, the URL-encoded space "%20" and the
      fifth space-separated word of `toString()`; when that text has fewer
      words, the template writes `undefined`. */
  function FormatDateTimeStr(year: int, monthIndex: int, day: int, dateText: string): (r: string)
  {
    var words := Split(dateText, ' ');
    FormatDateStr(year, monthIndex, day) + "%20" + (if |words| > 4 then words[4] else "undefined")
  }

  /** When the `toString()` text is words without spaces, joined by single
      spaces, and there are at least five of them, the date-time text ends
      with the fifth word: the `HH:MM:SS` of `Www Mmm DD YYYY HH:MM:SS ...`. */
  lemma FormatDateTimeStrTime(year: int, monthIndex: int, day: int, words: seq<string>)
    requires |words| > 4
    requires forall k :: 0 <= k < |words| ==> ' ' !in words[k]
    ensures FormatDateTimeStr(year, monthIndex, day, Join(words, ' '))
            == FormatDateStr(year, monthIndex, day) + "%20" + words[4]
  {
    JoinSplit(words, ' ');
  }

  /** A `toString()` text with fewer than five words gives `undefined` as the time. */
  lemma FormatDateTimeStrShort(year: int, monthIndex: int, day: int, dateText: string)
    requires |Split(dateText, ' ')| <= 4
    ensures FormatDateTimeStr(year, monthIndex, day, dateText)
            == FormatDateStr(year, monthIndex, day) + "%20undefined"
  {
  }
}
