/** `valid_email`: a full match of
        ([A-Za-z0-9]+[.-_])*[A-Za-z0-9]+@[A-Za-z0-9-]+(\.[A-Z|a-z]{2,})+
    The language is first written the way the regular expression reads, with
    the split points existentially quantified (`ValidEmail`); `IsValidEmail`
    is a checker that finds the split points directly, and
    `CheckerMatchesRegex` proves the two equal.

    Two features of the pattern are kept exactly as written:
    - `[.-_]` is the character range '.'..'_' (0x2E..0x5F), which holds the
      digits, the upper-case letters and `/ : ; < = > ? @ [ \ ] ^ _`, but not
      '-';
    - `[A-Z|a-z]` also holds '|'. */
module Email {
  import opened Text

  /** `[A-Za-z0-9]` */
  predicate IsAlnum(c: char)
  {
    'A' <= c <= 'Z' || 'a' <= c <= 'z' || '0' <= c <= '9'
  }

  /** `[.-_]`: the range from '.' to '_' */
  predicate InSepRange(c: char)
  {
    '.' <= c <= '_'
  }

  /** `[A-Za-z0-9-]` */
  predicate IsDomainChar(c: char)
  {
    IsAlnum(c) || c == '-'
  }

  /** `[A-Z|a-z]` */
  predicate IsTldChar(c: char)
  {
    'A' <= c <= 'Z' || c == '|' || 'a' <= c <= 'z'
  }

  // ---------------------------------------------------------------------
  // The language, as the pattern reads

  /** `[A-Za-z0-9]+` */
  predicate AlnumRun(s: string)
  {
    |s| >= 1 && forall i :: 0 <= i < |s| ==> IsAlnum(s[i])
  }

  /** `([A-Za-z0-9]+[.-_])*` */
  ghost predicate Blocks(s: string)
    decreases |s|
  {
    s == [] ||
    exists k :: 0 < k < |s| && AlnumRun(s[..k]) && InSepRange(s[k]) && Blocks(s[k + 1..])
  }

  /** `([A-Za-z0-9]+[.-_])*[A-Za-z0-9]+` */
  ghost predicate LocalPart(s: string)
  {
    exists k :: 0 <= k < |s| && Blocks(s[..k]) && AlnumRun(s[k..])
  }

  /** `[A-Za-z0-9-]+` */
  predicate DomainLabel(s: string)
  {
    |s| >= 1 && forall i :: 0 <= i < |s| ==> IsDomainChar(s[i])
  }

  /** `\.[A-Z|a-z]{2,}` */
  ghost predicate TldLabel(s: string)
  {
    |s| >= 3 && s[0] == '.' && forall i :: 1 <= i < |s| ==> IsTldChar(s[i])
  }

  /** `(\.[A-Z|a-z]{2,})+` */
  ghost predicate Suffix(s: string)
    decreases |s|
  {
    exists k :: 3 <= k <= |s| && TldLabel(s[..k]) && (k == |s| || Suffix(s[k..]))
  }

  /** `re.fullmatch` of the whole pattern. */
  ghost predicate ValidEmail(s: string)
  {
    exists i, j :: 0 <= i < j <= |s| && LocalPart(s[..i]) && s[i] == '@' &&
                   DomainLabel(s[i + 1..j]) && Suffix(s[j..])
  }

  // ---------------------------------------------------------------------
  // The checker

  /** The local part without split points: it starts and ends with `[A-Za-z0-9]`,
      uses `[A-Za-z0-9]` and `[.-_]` only, and of any two neighbours at least one
      is in `[A-Za-z0-9]`. */
  predicate LocalOk(s: string)
  {
    |s| >= 1 && IsAlnum(s[0]) && IsAlnum(s[|s| - 1]) &&
    (forall i :: 0 <= i < |s| ==> IsAlnum(s[i]) || InSepRange(s[i])) &&
    (forall i :: 0 <= i < |s| - 1 ==> IsAlnum(s[i]) || IsAlnum(s[i + 1]))
  }

  /** The suffix without split points: it starts with '.', uses '.' and
      `[A-Z|a-z]` only, and every '.' is followed by two characters of
      `[A-Z|a-z]`. */
  predicate SuffixOk(s: string)
  {
    |s| >= 1 && s[0] == '.' &&
    (forall i :: 0 <= i < |s| ==> s[i] == '.' || IsTldChar(s[i])) &&
    (forall i :: 0 <= i < |s| && s[i] == '.' ==> i + 2 < |s| && IsTldChar(s[i + 1]) && IsTldChar(s[i + 2]))
  }

  /** `valid_email`: no character after the domain's '@' can be an '@', and
      the domain holds no '.', so the split is at the last '@' and at the
      first '.' after it. */
  function IsValidEmail(s: string): bool
  {
    var i := RFind(s, '@');
    if i < 0 then false
    else
      var j := Find(s, '.', i + 1);
      LocalOk(s[..i]) && DomainLabel(s[i + 1..j]) && SuffixOk(s[j..])
  }

  // ---------------------------------------------------------------------
  // The checker recognises the language of the pattern

  lemma {:induction false} BlocksOk(t: string)
    requires Blocks(t)
    ensures t == [] || IsAlnum(t[0])
    ensures forall i :: 0 <= i < |t| ==> IsAlnum(t[i]) || InSepRange(t[i])
    ensures forall i :: 0 <= i < |t| - 1 ==> IsAlnum(t[i]) || IsAlnum(t[i + 1])
    decreases |t|
  {
    if t != [] {
      var k :| 0 < k < |t| && AlnumRun(t[..k]) && InSepRange(t[k]) && Blocks(t[k + 1..]);
      var run, rest := t[..k], t[k + 1..];
      BlocksOk(rest);
      forall i | 0 <= i < |t|
        ensures IsAlnum(t[i]) || InSepRange(t[i])
      {
        if i < k { assert t[i] == run[i]; }
        else if i > k { assert t[i] == rest[i - k - 1]; }
      }
      forall i | 0 <= i < |t| - 1
        ensures IsAlnum(t[i]) || IsAlnum(t[i + 1])
      {
        if i < k { assert t[i] == run[i]; }
        else { assert t[i + 1] == rest[i - k]; }
      }
      assert t[0] == run[0];
    }
  }

  lemma LocalPartOk(s: string)
    requires LocalPart(s)
    ensures LocalOk(s)
  {
    var k :| 0 <= k < |s| && Blocks(s[..k]) && AlnumRun(s[k..]);
    var t, w := s[..k], s[k..];
    BlocksOk(t);
    assert forall i :: 0 <= i < k ==> s[i] == t[i];
    assert forall i :: k <= i < |s| ==> s[i] == w[i - k];
  }

  /** What follows a separator of a well-formed local part is one too. */
  lemma LocalOkAfter(s: string, p: nat)
    requires LocalOk(s) && 0 < p < |s| - 1 && !IsAlnum(s[p])
    ensures InSepRange(s[p]) && LocalOk(s[p + 1..])
  {
    var rest := s[p + 1..];
    forall i | 0 <= i < |rest|
      ensures rest[i] == s[p + 1 + i]
    {
    }
    assert IsAlnum(s[p]) || IsAlnum(s[p + 1]);
    assert rest[0] == s[p + 1];
    assert rest[|rest| - 1] == s[|s| - 1];
  }

  /** A run, a separator and blocks make blocks. */
  lemma BlocksCons(t: string, p: nat)
    requires 0 < p < |t| && AlnumRun(t[..p]) && InSepRange(t[p]) && Blocks(t[p + 1..])
    ensures Blocks(t)
  {
  }

  lemma {:induction false} OkLocalPart(s: string)
    requires LocalOk(s)
    ensures LocalPart(s)
    decreases |s|
  {
    var p := Span(IsAlnum, s);
    if p == |s| {
      assert s[..0] == [] && s[0..] == s;
      assert Blocks(s[..0]);
    } else {
      // s[p] is a separator with an alphanumeric neighbour on both sides
      assert 0 < p < |s| - 1;
      var rest := s[p + 1..];
      LocalOkAfter(s, p);
      OkLocalPart(rest);
      var k' :| 0 <= k' < |rest| && Blocks(rest[..k']) && AlnumRun(rest[k'..]);
      assert AlnumRun(s[..p]) by {
        assert forall i :: 0 <= i < p ==> s[..p][i] == s[i];
      }
      LocalPartCons(s, p, k');
    }
  }

  /** A run, a separator and a local part make a local part. */
  lemma LocalPartCons(s: string, p: nat, k': nat)
    requires 0 < p < |s| && AlnumRun(s[..p]) && InSepRange(s[p])
    requires k' < |s| - p - 1 && Blocks(s[p + 1..][..k']) && AlnumRun(s[p + 1..][k'..])
    ensures LocalPart(s)
  {
    var rest := s[p + 1..];
    var k := p + 1 + k';
    var t := s[..k];
    assert t[..p] == s[..p];
    assert t[p + 1..] == rest[..k'];
    assert t[p] == s[p];
    BlocksCons(t, p);
    assert s[k..] == rest[k'..];
  }

  lemma LocalIff(s: string)
    ensures LocalPart(s) <==> LocalOk(s)
  {
    if LocalPart(s) { LocalPartOk(s); }
    if LocalOk(s) { OkLocalPart(s); }
  }

  lemma {:induction false} SuffixImpliesOk(s: string)
    requires Suffix(s)
    ensures SuffixOk(s)
    decreases |s|
  {
    var k :| 3 <= k <= |s| && TldLabel(s[..k]) && (k == |s| || Suffix(s[k..]));
    assert forall i :: 0 <= i < k ==> s[i] == s[..k][i];
    if k < |s| {
      var rest := s[k..];
      SuffixImpliesOk(rest);
      assert forall i :: k <= i < |s| ==> s[i] == rest[i - k];
    }
  }

  lemma {:induction false} OkImpliesSuffix(s: string)
    requires SuffixOk(s)
    ensures Suffix(s)
    decreases |s|
  {
    var k := Find(s, '.', 1);
    assert k >= 3 by {
      assert IsTldChar(s[1]) && IsTldChar(s[2]);
    }
    var head := s[..k];
    assert forall i :: 1 <= i < k ==> head[i] == s[i] && s[i] != '.';
    assert TldLabel(head);
    if k < |s| {
      var rest := s[k..];
      assert forall i :: 0 <= i < |rest| ==> rest[i] == s[k + i];
      assert SuffixOk(rest);
      OkImpliesSuffix(rest);
    }
  }

  lemma SuffixIff(s: string)
    ensures Suffix(s) <==> SuffixOk(s)
  {
    if Suffix(s) { SuffixImpliesOk(s); }
    if SuffixOk(s) { OkImpliesSuffix(s); }
  }

  /** An '@' with none after it is the last one. */
  lemma LastAt(s: string, i: nat)
    requires i < |s| && s[i] == '@'
    requires forall k :: i < k < |s| ==> s[k] != '@'
    ensures RFind(s, '@') == i
  {
  }

  /** A '.' (or the end) with none before it from `from` on is the first one. */
  lemma FirstDot(s: string, from: nat, j: nat)
    requires from <= j <= |s|
    requires j < |s| ==> s[j] == '.'
    requires forall k :: from <= k < j ==> s[k] != '.'
    ensures Find(s, '.', from) == j
  {
  }

  lemma CheckerSound(s: string)
    requires IsValidEmail(s)
    ensures ValidEmail(s)
  {
    var i := RFind(s, '@');
    var j := Find(s, '.', i + 1);
    LocalIff(s[..i]);
    SuffixIff(s[j..]);
    assert i < j;
  }

  /** A split into a well-formed local part, '@', a domain label and a
      well-formed suffix is the one the checker finds. */
  lemma SplitIsChecked(s: string, i: nat, j: nat)
    requires i < j <= |s| && s[i] == '@'
    requires LocalOk(s[..i]) && DomainLabel(s[i + 1..j]) && SuffixOk(s[j..])
    ensures IsValidEmail(s)
  {
    var dom, suf := s[i + 1..j], s[j..];
    // the '@' of the split is the last one
    forall k | i < k < |s|
      ensures s[k] != '@'
    {
      if k < j { assert s[k] == dom[k - i - 1]; }
      else { assert s[k] == suf[k - j]; }
    }
    LastAt(s, i);
    // the domain ends at the first '.' after it
    forall k | i + 1 <= k < j
      ensures s[k] != '.'
    {
      assert s[k] == dom[k - i - 1];
    }
    assert j < |s| ==> s[j] == suf[0];
    FirstDot(s, i + 1, j);
  }

  lemma CheckerComplete(s: string)
    requires ValidEmail(s)
    ensures IsValidEmail(s)
  {
    var i, j :| 0 <= i < j <= |s| && LocalPart(s[..i]) && s[i] == '@' &&
                DomainLabel(s[i + 1..j]) && Suffix(s[j..]);
    SuffixIff(s[j..]);
    LocalIff(s[..i]);
    SplitIsChecked(s, i, j);
  }

  /** `valid_email` as computed by the checker is exactly the language of the
      regular expression. */
  lemma CheckerMatchesRegex(s: string)
    ensures IsValidEmail(s) <==> ValidEmail(s)
  {
    if IsValidEmail(s) { CheckerSound(s); }
    if ValidEmail(s) { CheckerComplete(s); }
  }

  // ---------------------------------------------------------------------
  // Properties of the language

  /** A string without '@' is never accepted. */
  lemma RejectsWithoutAt(s: string)
    requires forall k :: 0 <= k < |s| ==> s[k] != '@'
    ensures !ValidEmail(s)
  {
  }

  /** Every accepted string ends in '.' followed by at least two characters
      of `[A-Z|a-z]`. */
  lemma {:induction false} SuffixEndsInTld(s: string)
    requires Suffix(s)
    ensures exists p :: 0 <= p && p + 3 <= |s| && s[p] == '.' &&
                        forall q :: p < q < |s| ==> IsTldChar(s[q])
    decreases |s|
  {
    var k :| 3 <= k <= |s| && TldLabel(s[..k]) && (k == |s| || Suffix(s[k..]));
    if k == |s| {
      assert s[..k] == s;
      assert forall q :: 0 < q < |s| ==> IsTldChar(s[q]);
    } else {
      var rest := s[k..];
      SuffixEndsInTld(rest);
      var p :| 0 <= p && p + 3 <= |rest| && rest[p] == '.' &&
               forall q :: p < q < |rest| ==> IsTldChar(rest[q]);
      assert s[k + p] == '.';
      assert forall q :: k + p < q < |s| ==> s[q] == rest[q - k];
    }
  }

  lemma AcceptedEndsInTld(s: string)
    requires ValidEmail(s)
    ensures exists p :: 0 <= p && p + 3 <= |s| && s[p] == '.' &&
                        forall q :: p < q < |s| ==> IsTldChar(s[q])
  {
    var i, j :| 0 <= i < j <= |s| && LocalPart(s[..i]) && s[i] == '@' &&
                DomainLabel(s[i + 1..j]) && Suffix(s[j..]);
    var suf := s[j..];
    SuffixEndsInTld(suf);
    var p :| 0 <= p && p + 3 <= |suf| && suf[p] == '.' &&
             forall q :: p < q < |suf| ==> IsTldChar(suf[q]);
    assert s[j + p] == '.';
    assert forall q :: j + p < q < |s| ==> s[q] == suf[q - j];
  }

  /** The split of an address at `i` ('@') and `j` (the domain's end) shows it
      is accepted. */
  lemma AcceptedAt(s: string, i: nat, j: nat)
    requires i < j <= |s| && s[i] == '@'
    requires LocalOk(s[..i]) && DomainLabel(s[i + 1..j]) && SuffixOk(s[j..])
    ensures ValidEmail(s) && IsValidEmail(s)
  {
    LocalIff(s[..i]);
    SuffixIff(s[j..]);
    CheckerMatchesRegex(s);
  }

  lemma AcceptedParts(s: string, local: string, domain: string, suffix: string)
    requires s == local + "@" + domain + suffix
    requires LocalOk(local) && DomainLabel(domain) && SuffixOk(suffix)
    ensures IsValidEmail(s)
  {
    var i, j := |local|, |local| + 1 + |domain|;
    assert s[..i] == local;
    assert s[i + 1..j] == domain;
    assert s[j..] == suffix;
    AcceptedAt(s, i, j);
  }

  /** An address whose last '@' follows a malformed local part is rejected. */
  lemma RejectedAt(s: string, local: string, rest: string)
    requires s == local + "@" + rest
    requires !LocalOk(local)
    requires forall k :: 0 <= k < |rest| ==> rest[k] != '@'
    ensures !IsValidEmail(s) && !ValidEmail(s)
  {
    assert forall k :: |local| < k < |s| ==> s[k] == rest[k - |local| - 1];
    assert s[|local|] == '@';
    assert RFind(s, '@') == |local|;
    assert s[..|local|] == local;
    CheckerMatchesRegex(s);
  }

  lemma SampleParts1()
    ensures "abderlahman_khawas@hotmail.com" == "abderlahman_khawas" + "@" + "hotmail" + ".com"
    ensures LocalOk("abderlahman_khawas") && DomainLabel("hotmail") && SuffixOk(".com")
  {
  }

  lemma SampleParts2()
    ensures "ahmed.ym.tawfik@gmail.com" == "ahmed.ym.tawfik" + "@" + "gmail" + ".com"
    ensures LocalOk("ahmed.ym.tawfik") && DomainLabel("gmail") && SuffixOk(".com")
  {
  }

  lemma SampleParts3()
    ensures "omar.kmaz@gmail.com" == "omar.kmaz" + "@" + "gmail" + ".com"
    ensures LocalOk("omar.kmaz") && DomainLabel("gmail") && SuffixOk(".com")
  {
  }

  /** The three addresses the module registers at import time are accepted. */
  lemma SampleAddressesAccepted()
    ensures IsValidEmail("abderlahman_khawas@hotmail.com")
    ensures IsValidEmail("ahmed.ym.tawfik@gmail.com")
    ensures IsValidEmail("omar.kmaz@gmail.com")
  {
    SampleParts1();
    SampleParts2();
    SampleParts3();
    AcceptedParts("abderlahman_khawas@hotmail.com", "abderlahman_khawas", "hotmail", ".com");
    AcceptedParts("ahmed.ym.tawfik@gmail.com", "ahmed.ym.tawfik", "gmail", ".com");
    AcceptedParts("omar.kmaz@gmail.com", "omar.kmaz", "gmail", ".com");
  }

  lemma SimpleParts()
    ensures "a@b.co" == "a" + "@" + "b" + ".co"
    ensures LocalOk("a") && DomainLabel("b") && SuffixOk(".co")
  {
  }

  /** A short address is accepted; a string without '@' is not. */
  lemma SimpleCases()
    ensures IsValidEmail("a@b.co")
    ensures !IsValidEmail("not-an-email")
  {
    SimpleParts();
    AcceptedParts("a@b.co", "a", "b", ".co");
    RejectsWithoutAt("not-an-email");
    CheckerMatchesRegex("not-an-email");
  }

  lemma SeparatorParts()
    ensures "a:b@c.de" == "a:b" + "@" + "c" + ".de"
    ensures LocalOk("a:b") && DomainLabel("c") && SuffixOk(".de")
    ensures "a@b@c.de" == "a@b" + "@" + "c" + ".de"
    ensures LocalOk("a@b") && DomainLabel("c") && SuffixOk(".de")
  {
  }

  lemma HyphenParts()
    ensures "a.b-c@sub.domain.org" == "a.b-c" + "@" + "sub.domain.org"
    ensures !LocalOk("a.b-c")
    ensures forall k :: 0 <= k < |"sub.domain.org"| ==> "sub.domain.org"[k] != '@'
  {
    assert "a.b-c"[3] == '-';
  }

  /** `[.-_]` is a range: ':' and '@' separate words of the local part, '-'
      does not, so "a.b-c@sub.domain.org" is rejected. */
  lemma SeparatorRange()
    ensures IsValidEmail("a:b@c.de")
    ensures IsValidEmail("a@b@c.de")
    ensures !IsValidEmail("a.b-c@sub.domain.org")
  {
    SeparatorParts();
    AcceptedParts("a:b@c.de", "a:b", "c", ".de");
    AcceptedParts("a@b@c.de", "a@b", "c", ".de");
    HyphenParts();
    RejectedAt("a.b-c@sub.domain.org", "a.b-c", "sub.domain.org");
  }

  lemma PipeParts()
    ensures "a@b.c|" == "a" + "@" + "b" + ".c|"
    ensures LocalOk("a") && DomainLabel("b") && SuffixOk(".c|")
  {
  }

  /** `[A-Z|a-z]` holds '|': "a@b.c|" is accepted. */
  lemma PipeInTopLevelDomain()
    ensures IsValidEmail("a@b.c|")
  {
    PipeParts();
    AcceptedParts("a@b.c|", "a", "b", ".c|");
  }
}
