/** The user id derived from a name (`hash_name`): the first three characters
    and the length of each of the two names. */
module Identity {
  import opened Decimal
  import opened Text

  /** `s[:3]`: Python slicing gives the whole string when it is shorter. */
  function Prefix3(s: string): (p: string)
    ensures |p| == if |s| < 3 then |s| else 3
    ensures p <= s
  {
    if |s| <= 3 then s else s[..3]
  }

  /** `f'{first[:3]}{len(first)}{last[:3]}{len(last)}'` */
  function HashName(first: string, last: string): string
  {
    Prefix3(first) + Show(|first|) + Prefix3(last) + Show(|last|)
  }

  /** The worked example: `hash_name("Abdelrahman", "Alkhawas") == "Abd11Alk8"`. */
  lemma HashNameExample()
    ensures HashName("Abdelrahman", "Alkhawas") == "Abd11Alk8"
  {
    assert Show(1) == "1";
    assert Show(11) == Show(1) + "1";
    assert Show(8) == "8";
  }

  /** The ids of the other two sample profiles. */
  lemma SampleIds()
    ensures HashName("Ahmed", "Abdelaziz") == "Ahm5Abd9"
    ensures HashName("Omar", "Zeid") == "Oma4Zei4"
  {
    assert Show(5) == "5" && Show(9) == "9" && Show(4) == "4";
  }

  /** Only the three-letter prefixes and the lengths enter the id: first names
      that agree on both collide when paired with the same last name. */
  lemma SameShapeSameId(first: string, first': string, last: string)
    requires Prefix3(first) == Prefix3(first') && |first| == |first'|
    ensures HashName(first, last) == HashName(first', last)
  {
  }

  /** A concrete collision: "Adam Smith" and "Adas Smith" share an id. */
  lemma KnownCollision()
    ensures "Adam" != "Adas" && HashName("Adam", "Smith") == HashName("Adas", "Smith")
  {
    SameShapeSameId("Adam", "Adas", "Smith");
  }

  predicate NoDigits(s: string)
  {
    forall i :: 0 <= i < |s| ==> !IsDigit(s[i])
  }

  /** If `a + b == a' + b'`, where `a` and `a'` consist of characters with
      property `P` and `b` and `b'` are empty or start with a character
      without it, then `a == a'` and `b == b'`. */
  lemma SplitAtFirst(P: char -> bool, a: string, b: string, a': string, b': string)
    requires forall i :: 0 <= i < |a| ==> P(a[i])
    requires forall i :: 0 <= i < |a'| ==> P(a'[i])
    requires b == [] || !P(b[0])
    requires b' == [] || !P(b'[0])
    requires a + b == a' + b'
    ensures a == a' && b == b'
  {
    SpanConcat(P, a, b);
    SpanConcat(P, a', b');
    assert a == (a + b)[..|a|] == (a' + b')[..|a'|] == a';
    assert b == (a + b)[|a|..] == (a' + b')[|a'|..] == b';
  }

  lemma Prefix3NoDigits(s: string)
    requires NoDigits(s)
    ensures NoDigits(Prefix3(s))
  {
  }

  /** After the first prefix, an id reads `digits + prefix + digits`, and it is
      all digits exactly when the last name, hence its prefix, is empty. */
  lemma AllDigitsIffNoPrefix(d: string, p: string, m: nat)
    requires AllDigits(d) && NoDigits(p)
    requires |p| == 0 <==> m == 0
    ensures AllDigits(d + p + Show(m)) <==> p == []
  {
    var s := d + p + Show(m);
    if p != [] {
      assert s[|d|] == p[0];
    } else {
      assert s == d + Show(m);
    }
  }

  /** For names without digits, the part of the id after the first prefix
      determines the first length, the last prefix and the last length. */
  lemma RestDetermined(d: string, p: string, d': string, p': string, m: nat, m': nat)
    requires AllDigits(d) && AllDigits(d') && |d| >= 1 && |d'| >= 1
    requires NoDigits(p) && NoDigits(p')
    requires |p| == 0 <==> m == 0
    requires |p'| == 0 <==> m' == 0
    requires d + p + Show(m) == d' + p' + Show(m')
    ensures d == d' && p == p' && m == m'
  {
    var sm, sm' := Show(m), Show(m');
    AllDigitsIffNoPrefix(d, p, m);
    AllDigitsIffNoPrefix(d', p', m');
    if p != [] {
      var nd := (c: char) => !IsDigit(c);
      assert d + p + sm == d + (p + sm);
      assert d' + p' + sm' == d' + (p' + sm');
      SplitAtFirst(IsDigit, d, p + sm, d', p' + sm');
      SplitAtFirst(nd, p, sm, p', sm');
      ShowInjective(m, m');
    } else {
      assert d + p == d && d' + p' == d';
      var s := d + sm;
      assert d == s[..|s| - 1] == d';
    }
  }

  lemma Regroup(a: string, b: string, c: string, d: string)
    ensures a + b + c + d == a + (b + c + d)
  {
  }

  /** The four parts of an id, each given by prefix or by length. */
  lemma IdDetermined(p1: string, n1: nat, p2: string, n2: nat, p1': string, n1': nat, p2': string, n2': nat)
    requires NoDigits(p1) && NoDigits(p2) && NoDigits(p1') && NoDigits(p2')
    requires |p2| == 0 <==> n2 == 0
    requires |p2'| == 0 <==> n2' == 0
    requires p1 + Show(n1) + p2 + Show(n2) == p1' + Show(n1') + p2' + Show(n2')
    ensures p1 == p1' && n1 == n1' && p2 == p2' && n2 == n2'
  {
    var d1, d1' := Show(n1), Show(n1');
    var rest, rest' := d1 + p2 + Show(n2), d1' + p2' + Show(n2');
    Regroup(p1, d1, p2, Show(n2));
    Regroup(p1', d1', p2', Show(n2'));
    assert rest[0] == d1[0] && rest'[0] == d1'[0];
    var nd := (c: char) => !IsDigit(c);
    SplitAtFirst(nd, p1, rest, p1', rest');
    RestDetermined(d1, p2, d1', p2', n2, n2');
    ShowInjective(n1, n1');
  }

  /** For names without digits, two names collide exactly when they agree on
      the three-letter prefix and the length of both the first and the last
      name. */
  lemma HashNameCollision(first: string, last: string, first': string, last': string)
    requires NoDigits(first) && NoDigits(last) && NoDigits(first') && NoDigits(last')
    ensures HashName(first, last) == HashName(first', last') <==>
            Prefix3(first) == Prefix3(first') && |first| == |first'| &&
            Prefix3(last) == Prefix3(last') && |last| == |last'|
  {
    if HashName(first, last) == HashName(first', last') {
      Prefix3NoDigits(first);
      Prefix3NoDigits(first');
      Prefix3NoDigits(last);
      Prefix3NoDigits(last');
      IdDetermined(Prefix3(first), |first|, Prefix3(last), |last|,
                   Prefix3(first'), |first'|, Prefix3(last'), |last'|);
    }
  }
}
