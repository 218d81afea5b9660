/** The birth-date parsing of `create_profile`:
        birth = birth.split('-')
        datetime.datetime(int(birth[2]), int(birth[1]), int(birth[0]))
    the parts are `DD-MM-YYYY`; fewer than three parts raise `IndexError`, a
    part that is no integer or a date outside the calendar raise `ValueError`. */
module Birth {
  import opened Values
  import opened Decimal
  import opened Text

  /** `s.split(sep)`: the pieces between the separators, empty ones included;
      `"".split(sep) == [""]`. */
  function Split(s: string, sep: char): (parts: seq<string>)
    ensures |parts| >= 1
    ensures forall p :: p in parts ==> sep !in p
    decreases |s|
  {
    var i := Find(s, sep, 0);
    if i == |s| then [s] else [s[..i]] + Split(s[i + 1..], sep)
  }

  /** `sep.join(parts)` */
  function Join(parts: seq<string>, sep: char): string
    requires |parts| >= 1
    decreases |parts|
  {
    if |parts| == 1 then parts[0] else parts[0] + [sep] + Join(parts[1..], sep)
  }

  /** Splitting loses nothing: joining the parts gives the string back. */
  lemma {:induction false} JoinSplit(s: string, sep: char)
    ensures Join(Split(s, sep), sep) == s
    decreases |s|
  {
    var i := Find(s, sep, 0);
    if i < |s| {
      JoinSplit(s[i + 1..], sep);
      assert s == s[..i] + [sep] + s[i + 1..];
    }
  }

  /** A piece without the separator, then the separator, starts the split. */
  lemma SplitCons(a: string, sep: char, rest: string)
    requires sep !in a
    ensures Split(a + [sep] + rest, sep) == [a] + Split(rest, sep)
  {
    var s := a + [sep] + rest;
    assert s[|a|] == sep;
    assert forall k :: 0 <= k < |a| ==> s[k] == a[k];
    assert Find(s, sep, 0) == |a|;
    assert s[..|a|] == a;
    assert s[|a| + 1..] == rest;
  }

  predicate IsLeapYear(y: int)
  {
    y % 4 == 0 && (y % 100 != 0 || y % 400 == 0)
  }

  function DaysInMonth(y: int, m: int): int
    requires 1 <= m <= 12
  {
    if m == 2 then (if IsLeapYear(y) then 29 else 28)
    else if m == 4 || m == 6 || m == 9 || m == 11 then 30
    else 31
  }

  /** What `datetime.datetime` accepts: years 1..9999, months 1..12, and a day
      of that month in the Gregorian calendar. */
  predicate ValidDate(y: int, m: int, d: int)
  {
    1 <= y <= 9999 && 1 <= m <= 12 && 1 <= d <= DaysInMonth(y, m)
  }

  /** The birth-date parsing of `create_profile`. The checks come in the order
      Python evaluates them: the third part is indexed first. */
  function ParseBirth(birth: string): (r: Result<Date, PyError>)
    ensures r.Ok? ==> ValidDate(r.value.year, r.value.month, r.value.day)
    ensures r.Err? ==> r.error == IndexError || r.error == ValueError || r.error == OverflowError
    ensures r == Err(IndexError) <==> |Split(birth, '-')| < 3
  {
    var parts := Split(birth, '-');
    if |parts| < 3 then Err(IndexError)
    else MakeDate(ParseNat(parts[2]), ParseNat(parts[1]), ParseNat(parts[0]))
  }

  /** The largest value of a C `int`, the type `datetime.datetime` converts
      its arguments to before it checks their ranges. */
  const IntMax: nat := 0x7fff_ffff

  /** `datetime.datetime(year, month, day)` on the parsed parts: a part that
      is no integer fails in `int`; a part beyond a C `int` overflows; then
      the calendar is checked. */
  function MakeDate(y: Option<nat>, m: Option<nat>, d: Option<nat>): (r: Result<Date, PyError>)
    ensures r.Ok? <==> y.Some? && m.Some? && d.Some? && ValidDate(y.value, m.value, d.value)
    ensures r.Ok? ==> r.value == Date(y.value, m.value, d.value)
    ensures r == Err(OverflowError) <==>
      y.Some? && m.Some? && d.Some? && (y.value > IntMax || m.value > IntMax || d.value > IntMax)
    ensures r.Err? ==> r.error == ValueError || r.error == OverflowError
  {
    if y.None? || m.None? || d.None? then Err(ValueError)
    else if y.value > IntMax || m.value > IntMax || d.value > IntMax then Err(OverflowError)
    else if !ValidDate(y.value, m.value, d.value) then Err(ValueError)
    else Ok(Date(y.value, m.value, d.value))
  }

  /** Three pieces without '-', joined by '-', split back into those pieces. */
  lemma SplitThree(s: string, a: string, b: string, c: string)
    requires s == a + "-" + b + "-" + c
    requires '-' !in a && '-' !in b && '-' !in c
    ensures Split(s, '-') == [a, b, c]
  {
    assert s == a + ['-'] + (b + ['-'] + c);
    SplitCons(a, '-', b + ['-'] + c);
    SplitCons(b, '-', c);
    assert Find(c, '-', 0) == |c|;
  }

  /** A string of exactly three parts is read part by part. */
  lemma ParseThree(s: string, a: string, b: string, c: string)
    requires s == a + "-" + b + "-" + c
    requires '-' !in a && '-' !in b && '-' !in c
    ensures ParseBirth(s) == MakeDate(ParseNat(c), ParseNat(b), ParseNat(a))
  {
    SplitThree(s, a, b, c);
  }

  lemma ShowHasNoDash(n: nat)
    ensures '-' !in Show(n)
  {
    var s := Show(n);
    assert !IsDigit('-');
    assert forall k :: 0 <= k < |s| ==> IsDigit(s[k]);
  }

  /** A valid date written `DD-MM-YYYY`, each part zero-padded to its
      width, parses back to that date. */
  lemma ParseFormatted(y: nat, m: nat, d: nat)
    requires ValidDate(y, m, d)
    ensures ParseBirth(Pad(Show(d), 2) + "-" + Pad(Show(m), 2) + "-" + Pad(Show(y), 4)) == Ok(Date(y, m, d))
  {
    var dd, mm, yyyy := Pad(Show(d), 2), Pad(Show(m), 2), Pad(Show(y), 4);
    ThreeParts(dd + "-" + mm + "-" + yyyy, dd, mm, yyyy);
    ParsePadded(d, 2);
    ParsePadded(m, 2);
    ParsePadded(y, 4);
  }

  /** The same holds without padding: `int` does not need the zeros. */
  lemma ParseUnpadded(y: nat, m: nat, d: nat)
    requires ValidDate(y, m, d)
    ensures ParseBirth(Show(d) + "-" + Show(m) + "-" + Show(y)) == Ok(Date(y, m, d))
  {
    ShowHasNoDash(d);
    ShowHasNoDash(m);
    ShowHasNoDash(y);
    ParseThree(Show(d) + "-" + Show(m) + "-" + Show(y), Show(d), Show(m), Show(y));
    ParseShow(d);
    ParseShow(m);
    ParseShow(y);
  }

  /** Splitting distributes over a separator. */
  lemma {:induction false} SplitAppend(s: string, sep: char, extra: string)
    ensures Split(s + [sep] + extra, sep) == Split(s, sep) + Split(extra, sep)
    decreases |s|
  {
    var i := Find(s, sep, 0);
    if i == |s| {
      SplitCons(s, sep, extra);
    } else {
      var a, b := s[..i], s[i + 1..];
      assert sep !in a;
      assert s == a + [sep] + b;
      assert s + [sep] + extra == a + [sep] + (b + [sep] + extra);
      SplitCons(a, sep, b + [sep] + extra);
      SplitAppend(b, sep, extra);
    }
  }

  /** Only the first three parts are read: anything after a third '-' is
      ignored. */
  lemma ExtraPartsIgnored(birth: string, extra: string)
    requires |Split(birth, '-')| >= 3
    ensures ParseBirth(birth + "-" + extra) == ParseBirth(birth)
  {
    SplitAppend(birth, '-', extra);
    var parts, parts' := Split(birth, '-'), Split(birth + "-" + extra, '-');
    assert parts'[0] == parts[0] && parts'[1] == parts[1] && parts'[2] == parts[2];
  }

  /** The numerals of "04-10-2001" and "2001-10-04". */
  lemma Numerals04102001()
    ensures ParseNat("04") == Some(4) && ParseNat("10") == Some(10) && ParseNat("2001") == Some(2001)
  {
    assert ParseNat("04") == Some(4) by { ParsePadded(4, 2); assert Pad(Show(4), 2) == "04"; }
    assert ParseNat("10") == Some(10) by { ParseShow(10); assert Show(10) == "10"; }
    assert ParseNat("2001") == Some(2001) by { ParseShow(2001); assert Show(2001) == "2001"; }
  }

  /** The numerals of "29-02-2001". */
  lemma Numerals29022001()
    ensures ParseNat("29") == Some(29) && ParseNat("02") == Some(2) && ParseNat("2001") == Some(2001)
  {
    assert ParseNat("29") == Some(29) by { ParseShow(29); assert Show(29) == "29"; }
    assert ParseNat("02") == Some(2) by { ParsePadded(2, 2); assert Pad(Show(2), 2) == "02"; }
    assert ParseNat("2001") == Some(2001) by { ParseShow(2001); assert Show(2001) == "2001"; }
  }

  /** The numerals of "19-07-2002". */
  lemma Numerals19072002()
    ensures ParseNat("19") == Some(19) && ParseNat("07") == Some(7) && ParseNat("2002") == Some(2002)
  {
    assert ParseNat("19") == Some(19) by { ParseShow(19); assert Show(19) == "19"; }
    assert ParseNat("07") == Some(7) by { ParsePadded(7, 2); assert Pad(Show(7), 2) == "07"; }
    assert ParseNat("2002") == Some(2002) by { ParseShow(2002); assert Show(2002) == "2002"; }
  }

  /** The numerals of "21-09-2000". */
  lemma Numerals21092000()
    ensures ParseNat("21") == Some(21) && ParseNat("09") == Some(9) && ParseNat("2000") == Some(2000)
  {
    assert ParseNat("21") == Some(21) by { ParseShow(21); assert Show(21) == "21"; }
    assert ParseNat("09") == Some(9) by { ParsePadded(9, 2); assert Pad(Show(9), 2) == "09"; }
    assert ParseNat("2000") == Some(2000) by { ParseShow(2000); assert Show(2000) == "2000"; }
  }

  lemma ThreeParts(s: string, a: string, b: string, c: string)
    requires s == a + "-" + b + "-" + c
    requires forall k :: 0 <= k < |a| ==> IsDigit(a[k])
    requires forall k :: 0 <= k < |b| ==> IsDigit(b[k])
    requires forall k :: 0 <= k < |c| ==> IsDigit(c[k])
    ensures ParseBirth(s) == MakeDate(ParseNat(c), ParseNat(b), ParseNat(a))
  {
    assert !IsDigit('-');
    ParseThree(s, a, b, c);
  }

  lemma ExampleShapes()
    ensures "04-10-2001" == "04" + "-" + "10" + "-" + "2001"
    ensures "2001-10-04" == "2001" + "-" + "10" + "-" + "04"
    ensures "29-02-2001" == "29" + "-" + "02" + "-" + "2001"
    ensures "19-07-2002" == "19" + "-" + "07" + "-" + "2002"
    ensures "21-09-2000" == "21" + "-" + "09" + "-" + "2000"
    ensures AllDigits("04") && AllDigits("10") && AllDigits("2001") && AllDigits("29") && AllDigits("02")
    ensures AllDigits("19") && AllDigits("07") && AllDigits("2002") && AllDigits("21") && AllDigits("09")
    ensures AllDigits("2000")
  {
  }

  lemma ExampleSplits()
    ensures ParseBirth("04-10-2001") == MakeDate(ParseNat("2001"), ParseNat("10"), ParseNat("04"))
    ensures ParseBirth("2001-10-04") == MakeDate(ParseNat("04"), ParseNat("10"), ParseNat("2001"))
    ensures ParseBirth("29-02-2001") == MakeDate(ParseNat("2001"), ParseNat("02"), ParseNat("29"))
  {
    ExampleShapes();
    ThreeParts("04-10-2001", "04", "10", "2001");
    ThreeParts("2001-10-04", "2001", "10", "04");
    ThreeParts("29-02-2001", "29", "02", "2001");
  }

  lemma SampleSplits()
    ensures ParseBirth("19-07-2002") == MakeDate(ParseNat("2002"), ParseNat("07"), ParseNat("19"))
    ensures ParseBirth("21-09-2000") == MakeDate(ParseNat("2000"), ParseNat("09"), ParseNat("21"))
  {
    ExampleShapes();
    ThreeParts("19-07-2002", "19", "07", "2002");
    ThreeParts("21-09-2000", "21", "09", "2000");
  }

  /** The worked example: "04-10-2001" is the 4th of October 2001. */
  lemma ParseExample()
    ensures ParseBirth("04-10-2001") == Ok(Date(2001, 10, 4))
  {
    assert MakeDate(ParseNat("2001"), ParseNat("10"), ParseNat("04")) == Ok(Date(2001, 10, 4)) by {
      Numerals04102001();
    }
    ExampleSplits();
  }

  /** The birth dates of the other two sample profiles. */
  lemma SampleBirthDates()
    ensures ParseBirth("19-07-2002") == Ok(Date(2002, 7, 19))
    ensures ParseBirth("21-09-2000") == Ok(Date(2000, 9, 21))
  {
    assert MakeDate(ParseNat("2002"), ParseNat("07"), ParseNat("19")) == Ok(Date(2002, 7, 19)) by {
      Numerals19072002();
    }
    assert MakeDate(ParseNat("2000"), ParseNat("09"), ParseNat("21")) == Ok(Date(2000, 9, 21)) by {
      Numerals21092000();
    }
    SampleSplits();
  }

  /** The order of the parts is fixed: a year-first string is no date, and
      neither is the 29th of February of a common year. */
  lemma MalformedBirthRejected()
    ensures ParseBirth("2001-10-04") == Err(ValueError)
    ensures ParseBirth("29-02-2001") == Err(ValueError)
  {
    assert MakeDate(ParseNat("04"), ParseNat("10"), ParseNat("2001")) == Err(ValueError) by {
      Numerals04102001();
    }
    assert MakeDate(ParseNat("2001"), ParseNat("02"), ParseNat("29")) == Err(ValueError) by {
      Numerals29022001();
    }
    ExampleSplits();
  }

  /** A year beyond a C `int` raises `OverflowError` (for example
      "01-01-2147483648"), although the calendar would reject it anyway. */
  lemma OverflowRejected(d: string, m: string, y: nat)
    requires |d| >= 1 && AllDigits(d) && |m| >= 1 && AllDigits(m) && y > IntMax
    ensures ParseBirth(d + "-" + m + "-" + Show(y)) == Err(OverflowError)
  {
    ThreeParts(d + "-" + m + "-" + Show(y), d, m, Show(y));
    ParseShow(y);
  }

  /** A missing part raises `IndexError`. */
  lemma MissingPartRejected()
    ensures ParseBirth("04-10") == Err(IndexError)
  {
    assert "04-10" == "04" + "-" + "10" && '-' !in "04" && '-' !in "10";
    TooFewParts("04-10", "04", "10");
  }

  /** A string without '-' (such as "04/10/2001", or the empty string) is
      one part, so indexing the third raises `IndexError`. */
  lemma NoDashRejected(s: string)
    requires '-' !in s
    ensures Split(s, '-') == [s]
    ensures ParseBirth(s) == Err(IndexError)
  {
  }

  lemma TooFewParts(s: string, a: string, b: string)
    requires s == a + "-" + b
    requires '-' !in a && '-' !in b
    ensures ParseBirth(s) == Err(IndexError)
  {
    SplitCons(a, '-', b);
    assert Find(b, '-', 0) == |b|;
  }
}
