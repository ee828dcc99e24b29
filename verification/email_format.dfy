/** The e-mail check of both registration serializers, the pattern
    `^[\w\.-]+@[\w\.-]+\.\w+$`, as a scan for the `@` and the final dot, next to an
    independent description of the same language as a `local@domain.tld` split. */
module EmailFormat {
  import opened Outcomes
  import opened Text
  import Seqs

  /** The class `[\w\.-]`. */
  predicate IsAddressChar(c: char) { IsWordChar(c) || c == '.' || c == '-' }

  predicate AllAddressChars(s: string) { forall i :: 0 <= i < |s| ==> IsAddressChar(s[i]) }

  predicate AllWordChars(s: string) { forall i :: 0 <= i < |s| ==> IsWordChar(s[i]) }

  /** `[\w\.-]+\.\w+` on the whole of `d`: the last dot is preceded by at least one address
      character and followed by at least one word character, and only word characters. */
  predicate DomainMatches(d: string) {
    match Seqs.LastIndex(d, (c: char) => c == '.')
    case None => false
    case Some(j) => 0 < j < |d| - 1 && AllAddressChars(d[..j]) && AllWordChars(d[j + 1..])
  }

  /** The pattern body between the anchors. No class admits `@`, so the `@` the pattern
      consumes is the first one in the string. */
  predicate EmailMatches(s: string)
    ensures EmailMatches(s) ==> 5 <= |s| && s[0] != '@' && IsWordChar(s[|s| - 1])
  {
    match Seqs.FirstIndex(s, (c: char) => c == '@')
    case None => false
    case Some(k) => 0 < k && AllAddressChars(s[..k]) && DomainMatches(s[k + 1..])
  }

  /** The whole anchored pattern as `re.match` applies it. */
  predicate EmailPatternMatches(s: string)
    ensures EmailMatches(s) ==> EmailPatternMatches(s)
    ensures EmailPatternMatches(s) && !EmailMatches(s) ==>
              6 <= |s| && s[|s| - 1] == '\n' && EmailMatches(s[..|s| - 1])
  {
    MatchesAnchored(EmailMatches, s)
  }

  /** Reference definition: `s` splits as `local @ domain . tld` with non-empty parts,
      local part and domain drawn from `[\w.-]`, top-level part from `\w`. */
  ghost predicate EmailShape(s: string) {
    exists i, j :: ShapeAt(s, i, j)
  }

  /** The split of `EmailShape` with the `@` at `i` and the final dot at `j`. */
  predicate ShapeAt(s: string, i: int, j: int) {
    && 0 < i && i + 1 < j && j + 1 < |s|
    && s[i] == '@' && s[j] == '.'
    && AllAddressChars(s[..i]) && AllAddressChars(s[i + 1..j]) && AllWordChars(s[j + 1..])
  }

  /** Everything the scan accepts has the `local@domain.tld` shape. */
  lemma ScanGivesShape(s: string)
    requires EmailMatches(s)
    ensures EmailShape(s)
  {
    var k := Seqs.FirstIndex(s, (c: char) => c == '@').value;
    var d := s[k + 1..];
    var jd := Seqs.LastIndex(d, (c: char) => c == '.').value;
    var j := k + 1 + jd;
    assert s[k + 1..j] == d[..jd];
    assert s[j + 1..] == d[jd + 1..];
    assert s[k] == '@' && s[j] == '.';
    assert ShapeAt(s, k, j);
  }

  /** An `@` preceded only by address characters is the first `@`. */
  lemma FirstAt(s: string, i: nat)
    requires i < |s| && s[i] == '@' && AllAddressChars(s[..i])
    ensures Seqs.FirstIndex(s, (c: char) => c == '@') == Some(i)
  {
    var first := Seqs.FirstIndex(s, (c: char) => c == '@');
    assert forall t :: 0 <= t < i ==> s[t] == s[..i][t];
  }

  /** A dot followed only by word characters is the last dot. */
  lemma LastDot(d: string, j: nat)
    requires j < |d| && d[j] == '.' && AllWordChars(d[j + 1..])
    ensures Seqs.LastIndex(d, (c: char) => c == '.') == Some(j)
  {
    var last := Seqs.LastIndex(d, (c: char) => c == '.');
    assert forall t :: j < t < |d| ==> d[t] == d[j + 1..][t - j - 1];
  }

  /** Every `local@domain.tld` split is accepted by the scan. */
  lemma ShapeGivesScan(s: string, i: nat, j: nat)
    requires 0 < i && i + 1 < j && j + 1 < |s|
    requires s[i] == '@' && s[j] == '.'
    requires AllAddressChars(s[..i]) && AllAddressChars(s[i + 1..j]) && AllWordChars(s[j + 1..])
    ensures EmailMatches(s)
  {
    FirstAt(s, i);
    var d := s[i + 1..];
    var jd := j - i - 1;
    assert d[..jd] == s[i + 1..j];
    assert d[jd + 1..] == s[j + 1..];
    LastDot(d, jd);
  }

  /** The scan and the split describe the same strings. */
  lemma EmailLanguage(s: string)
    ensures EmailMatches(s) <==> EmailShape(s)
  {
    if EmailMatches(s) {
      ScanGivesShape(s);
    }
    if EmailShape(s) {
      var i, j :| ShapeAt(s, i, j);
      ShapeGivesScan(s, i, j);
    }
  }

  /** An address with dots and a hyphen in its local part and a two-level domain is accepted. */
  lemma EmailAccepted()
    ensures EmailMatches("a.b-c@m.ex.io")
  {
    var s := "a.b-c@m.ex.io";
    assert s[5] == '@' && s[10] == '.';
    assert s[..5] == "a.b-c" && s[6..10] == "m.ex" && s[11..] == "io";
    ShapeGivesScan(s, 5, 10);
  }

  /** Addresses missing the local part, the domain, the dot or the top-level part are refused. */
  lemma EmailRefused()
    ensures !EmailMatches("a@b") && !EmailMatches("@b.com") && !EmailMatches("a@.com") && !EmailMatches("a@b.")
  {
    assert "a@b"[2..] == "b";
    assert "a@.com"[2..] == ".com";
    assert "a@b."[2..] == "b.";
  }

  /** Lower-casing keeps the `local@domain.tld` shape: the separators are not letters and the
      character classes are closed under lower-casing. */
  lemma LowerKeepsShape(s: string)
    requires EmailShape(s)
    ensures EmailShape(Lower(s))
  {
    var i, j :| ShapeAt(s, i, j);
    LowerKeepsSplit(s, i, j);
  }

  /** Lower-casing keeps a given split: the `@` and the dot stay where they were. */
  lemma LowerKeepsSplit(s: string, i: int, j: int)
    requires ShapeAt(s, i, j)
    ensures ShapeAt(Lower(s), i, j)
  {
    var l := Lower(s);
    forall t | 0 <= t < i
      ensures IsAddressChar(l[..i][t])
    {
      assert s[..i][t] == s[t];
    }
    var domain := l[i + 1..j];
    forall t | 0 <= t < |domain|
      ensures IsAddressChar(domain[t])
    {
      assert s[i + 1..j][t] == s[i + 1 + t];
    }
    var tld := l[j + 1..];
    forall t | 0 <= t < |tld|
      ensures IsWordChar(tld[t])
    {
      assert s[j + 1..][t] == s[j + 1 + t];
    }
  }
}
