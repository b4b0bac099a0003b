/** The email format `^\w+([\.-]?\w+)*@\w+([\.-]?\w+)*(\.\w{2,3})+$` that
    the user schema and the profile update both apply: a scanner that decides
    it, the regular expression read as a grammar, and the facts the rest of
    the model relies on (one '@', no white space, closed under lower-casing). */
module EmailFormat {
  import opened JsText

  /** The optional separator class `[\.-]`. */
  predicate IsSep(c: char) {
    c == '.' || c == '-'
  }

  predicate AllWord(s: string) {
    forall m :: 0 <= m < |s| ==> IsWordChar(s[m])
  }

  predicate WordOrSep(s: string) {
    forall m :: 0 <= m < |s| ==> IsWordChar(s[m]) || IsSep(s[m])
  }

  predicate NoDoubleSep(s: string) {
    forall m :: 0 <= m < |s| - 1 ==> !(IsSep(s[m]) && IsSep(s[m + 1]))
  }

  /** Word characters and single separators, ending in a word character
      unless empty: what `([\.-]?\w+)*` matches. */
  predicate Joined(s: string) {
    WordOrSep(s) && NoDoubleSep(s) && (s == [] || IsWordChar(s[|s| - 1]))
  }

  /** What `\w+([\.-]?\w+)*` matches: a non-empty joined run that starts with
      a word character, so no separator leads, trails or doubles. */
  predicate SepWord(s: string) {
    s != [] && IsWordChar(s[0]) && Joined(s)
  }

  /** The domain after '@': a separated word whose last '.' is followed by
      two or three word characters. */
  predicate IsDomain(d: string) {
    var dot := LastIndexOf(d, '.');
    SepWord(d) && dot >= 0 && 2 <= |d| - dot - 1 <= 3 && AllWord(d[dot + 1..])
  }

  /** The scanner: the text before the first '@' is a separated word and the
      text after it a domain. */
  predicate IsEmail(e: string) {
    var at := IndexOf(e, '@');
    at >= 0 && SepWord(e[..at]) && IsDomain(e[at + 1..])
  }

  // ---------------------------------------------------------------------------
  // The regular expression as a grammar

  /** `\w+` */
  ghost predicate WordRun(s: string) {
    s != [] && AllWord(s)
  }

  /** `[\.-]?\w+` */
  ghost predicate Piece(p: string) {
    WordRun(p) || (|p| > 1 && IsSep(p[0]) && WordRun(p[1..]))
  }

  /** `([\.-]?\w+)*` */
  ghost predicate Pieces(s: string)
    decreases |s|
  {
    s == [] || exists n :: 0 < n <= |s| && Piece(s[..n]) && Pieces(s[n..])
  }

  /** `\w+([\.-]?\w+)*` */
  ghost predicate Chain(s: string) {
    exists n :: 0 < n <= |s| && WordRun(s[..n]) && Pieces(s[n..])
  }

  /** `\.\w{2,3}` */
  ghost predicate Group(g: string) {
    (|g| == 3 || |g| == 4) && g[0] == '.' && AllWord(g[1..])
  }

  /** `(\.\w{2,3})+` */
  ghost predicate Groups(s: string)
    decreases |s|
  {
    Group(s) || exists n :: 0 < n < |s| && Groups(s[..n]) && Group(s[n..])
  }

  /** Position `n` cuts a domain into `\w+([\.-]?\w+)*` and `(\.\w{2,3})+`. */
  ghost predicate DomainCut(d: string, n: int) {
    0 < n <= |d| && Chain(d[..n]) && Groups(d[n..])
  }

  /** `\w+([\.-]?\w+)*(\.\w{2,3})+` */
  ghost predicate Domain(d: string) {
    exists n :: DomainCut(d, n)
  }

  /** Position `at` holds the '@' between the two halves of the pattern. */
  ghost predicate EmailCut(e: string, at: int) {
    0 <= at < |e| && e[at] == '@' && Chain(e[..at]) && Domain(e[at + 1..])
  }

  /** The regular expression: some '@' splits the address into its halves. */
  ghost predicate EmailPattern(e: string) {
    exists at :: EmailCut(e, at)
  }

  // ---------------------------------------------------------------------------
  // Scanner and grammar agree

  lemma SepIsNotWord(c: char)
    requires IsSep(c)
    ensures !IsWordChar(c)
  {
  }

  lemma WordIsNotSep(c: char)
    requires IsWordChar(c)
    ensures !IsSep(c)
  {
  }

  /** A non-empty joined run followed by a joined run is joined. */
  lemma JoinedAppend(p: string, b: string)
    requires p != [] && Joined(p) && Joined(b)
    ensures Joined(p + b)
  {
    var s := p + b;
    if b == [] {
      assert s == p;
    } else {
      forall m | 0 <= m < |s|
        ensures IsWordChar(s[m]) || IsSep(s[m])
      {
        if m >= |p| {
          assert s[m] == b[m - |p|];
        }
      }
      forall m | 0 <= m < |s| - 1
        ensures !(IsSep(s[m]) && IsSep(s[m + 1]))
      {
        if m + 1 < |p| {
          assert s[m] == p[m] && s[m + 1] == p[m + 1];
        } else if m + 1 == |p| {
          assert s[m] == p[|p| - 1];
          WordIsNotSep(s[m]);
        } else {
          assert s[m] == b[m - |p|] && s[m + 1] == b[m + 1 - |p|];
        }
      }
      assert s[|s| - 1] == b[|b| - 1];
    }
  }

  /** What remains of a joined run after its first character is joined. */
  lemma JoinedSuffix(s: string, n: nat)
    requires n <= |s| && Joined(s)
    ensures Joined(s[n..])
  {
    var t := s[n..];
    forall m | 0 <= m < |t| - 1
      ensures !(IsSep(t[m]) && IsSep(t[m + 1]))
    {
      assert t[m] == s[n + m] && t[m + 1] == s[n + m + 1];
    }
  }

  lemma PieceIsJoined(p: string)
    requires Piece(p)
    ensures p != [] && Joined(p)
  {
    if !WordRun(p) {
      forall m | 0 <= m < |p| - 1
        ensures !(IsSep(p[m]) && IsSep(p[m + 1]))
      {
        assert p[m + 1] == p[1..][m];
        WordIsNotSep(p[m + 1]);
      }
      assert p[|p| - 1] == p[1..][|p| - 2];
      forall m | 0 <= m < |p|
        ensures IsWordChar(p[m]) || IsSep(p[m])
      {
        if m > 0 {
          assert p[m] == p[1..][m - 1];
        }
      }
    }
  }

  lemma {:induction false} PiecesIsJoined(s: string)
    requires Pieces(s)
    ensures Joined(s)
    decreases |s|
  {
    if s != [] {
      var n :| 0 < n <= |s| && Piece(s[..n]) && Pieces(s[n..]);
      PiecesIsJoined(s[n..]);
      PieceIsJoined(s[..n]);
      JoinedAppend(s[..n], s[n..]);
      assert s == s[..n] + s[n..];
    }
  }

  lemma {:induction false} JoinedIsPieces(s: string)
    requires Joined(s)
    ensures Pieces(s)
    decreases |s|
  {
    if s != [] {
      var n := if IsWordChar(s[0]) then 1 else 2;
      if n == 2 {
        assert |s| > 1 by {
          if |s| == 1 {
            SepIsNotWord(s[0]);
          }
        }
        assert IsSep(s[0]) && !IsSep(s[1]);
        assert s[..2][1..] == [s[1]];
      } else {
        assert s[..1] == [s[0]];
      }
      assert Piece(s[..n]);
      JoinedSuffix(s, n);
      JoinedIsPieces(s[n..]);
    }
  }

  /** `\w+([\.-]?\w+)*` matches exactly the separated words. */
  lemma ChainIffSepWord(s: string)
    ensures Chain(s) <==> SepWord(s)
  {
    if Chain(s) {
      var n :| 0 < n <= |s| && WordRun(s[..n]) && Pieces(s[n..]);
      PieceIsJoined(s[..n]);
      PiecesIsJoined(s[n..]);
      JoinedAppend(s[..n], s[n..]);
      assert s == s[..n] + s[n..];
      assert s[0] == s[..n][0];
    }
    if SepWord(s) {
      assert s[..1] == [s[0]];
      JoinedSuffix(s, 1);
      JoinedIsPieces(s[1..]);
      assert WordRun(s[..1]);
    }
  }

  /** The shape every match of `(\.\w{2,3})+` has: it starts with '.', is
      joined, and ends in its last group, a '.' and two or three word characters. */
  predicate GroupsLike(g: string) {
    var q := LastIndexOf(g, '.');
    g != [] && g[0] == '.' && Joined(g) && q >= 0 && 2 <= |g| - q - 1 <= 3 && AllWord(g[q + 1..])
  }

  lemma AllWordHasNoDot(w: string)
    requires AllWord(w)
    ensures '.' !in w
  {
    forall m | 0 <= m < |w|
      ensures w[m] != '.'
    {
      WordIsNotSep(w[m]);
    }
  }

  lemma GroupIsGroupsLike(g: string)
    requires Group(g)
    ensures GroupsLike(g)
  {
    AllWordHasNoDot(g[1..]);
    LastIndexOfIs(g, '.', 0);
    assert Piece(g);
    PieceIsJoined(g);
  }

  lemma AppendGroup(h: string, last: string)
    requires GroupsLike(h) && Group(last)
    ensures GroupsLike(h + last)
  {
    var g := h + last;
    assert Piece(last);
    PieceIsJoined(last);
    JoinedAppend(h, last);
    assert g[|h|] == '.';
    assert g[|h| + 1..] == last[1..];
    AllWordHasNoDot(last[1..]);
    LastIndexOfIs(g, '.', |h|);
  }

  lemma {:induction false} GroupsShape(g: string)
    requires Groups(g)
    ensures GroupsLike(g)
    decreases |g|, 1
  {
    if Group(g) {
      GroupIsGroupsLike(g);
    } else {
      LastGroupShape(g);
    }
  }

  /** Groups that are not a single group end in one after shorter groups. */
  lemma {:induction false} LastGroupShape(g: string)
    requires Groups(g) && !Group(g)
    ensures GroupsLike(g)
    decreases |g|, 0
  {
    var n :| 0 < n < |g| && Groups(g[..n]) && Group(g[n..]);
    var h, last := g[..n], g[n..];
    TakeDrop(g, n);
    GroupsShape(h);
    AppendGroup(h, last);
  }

  lemma SepWordThenGroups(a: string, g: string)
    requires SepWord(a) && GroupsLike(g)
    ensures IsDomain(a + g)
  {
    var d := a + g;
    JoinedAppend(a, g);
    assert d[0] == a[0];
    var q := LastIndexOf(g, '.');
    assert d[|a| + q] == '.';
    assert d[|a| + q + 1..] == g[q + 1..];
    LastIndexOfIs(d, '.', |a| + q);
  }

  lemma CutIsDomain(d: string, n: int)
    requires DomainCut(d, n)
    ensures IsDomain(d)
  {
    var a, g := d[..n], d[n..];
    assert d == a + g;
    ChainIffSepWord(a);
    GroupsShape(g);
    SepWordThenGroups(a, g);
  }

  /** A domain splits at its last '.' into a separated word and one group. */
  lemma DomainIsCut(d: string)
    requires IsDomain(d)
    ensures DomainCut(d, LastIndexOf(d, '.'))
  {
    var dot := LastIndexOf(d, '.');
    assert dot > 0 by {
      if dot == 0 {
        SepIsNotWord(d[0]);
      }
    }
    var a := d[..dot];
    assert IsWordChar(a[|a| - 1]) by {
      assert a[|a| - 1] == d[dot - 1];
      assert !IsSep(d[dot - 1]);
    }
    forall m | 0 <= m < |a| - 1
      ensures !(IsSep(a[m]) && IsSep(a[m + 1]))
    {
      assert a[m] == d[m] && a[m + 1] == d[m + 1];
    }
    assert SepWord(a);
    ChainIffSepWord(a);
    var g := d[dot..];
    assert g[1..] == d[dot + 1..];
    assert Group(g);
  }

  lemma DomainIff(d: string)
    ensures IsDomain(d) <==> Domain(d)
  {
    if IsDomain(d) {
      DomainIsCut(d);
    }
    if Domain(d) {
      var n :| DomainCut(d, n);
      CutIsDomain(d, n);
    }
  }

  /** No character of a separated word is an '@'. */
  lemma SepWordHasNoAt(s: string)
    requires SepWord(s)
    ensures '@' !in s
  {
    forall m | 0 <= m < |s|
      ensures s[m] != '@'
    {
      assert IsWordChar(s[m]) || IsSep(s[m]);
    }
  }

  /** An '@' between a separated word and a domain is the first one. */
  lemma EmailFromParts(e: string, at: int)
    requires 0 <= at < |e| && e[at] == '@' && SepWord(e[..at]) && IsDomain(e[at + 1..])
    ensures IsEmail(e)
  {
    SepWordHasNoAt(e[..at]);
    IndexOfIs(e, '@', at);
  }

  /** The scanner accepts exactly what the regular expression matches. */
  lemma EmailIffPattern(e: string)
    ensures IsEmail(e) <==> EmailPattern(e)
  {
    if IsEmail(e) {
      var at := IndexOf(e, '@');
      ChainIffSepWord(e[..at]);
      DomainIff(e[at + 1..]);
      assert EmailCut(e, at);
    }
    if EmailPattern(e) {
      var at :| EmailCut(e, at);
      ChainIffSepWord(e[..at]);
      DomainIff(e[at + 1..]);
      EmailFromParts(e, at);
    }
  }

  // ---------------------------------------------------------------------------
  // Consequences

  lemma WordOrSepIsNotSpace(c: char)
    requires IsWordChar(c) || IsSep(c)
    ensures !IsSpace(c) && c != '@'
  {
  }

  /** Every character of an accepted address but its '@' is a word
      character or a separator. */
  lemma EmailChars(e: string)
    requires IsEmail(e)
    ensures forall i :: 0 <= i < |e| && i != IndexOf(e, '@') ==> IsWordChar(e[i]) || IsSep(e[i])
  {
    var at := IndexOf(e, '@');
    var a, d := e[..at], e[at + 1..];
    forall i | 0 <= i < |e| && i != at
      ensures IsWordChar(e[i]) || IsSep(e[i])
    {
      if i < at {
        assert e[i] == a[i];
      } else {
        assert e[i] == d[i - at - 1];
      }
    }
  }

  /** An accepted address has exactly one '@' and no white space. */
  lemma EmailShape(e: string)
    requires IsEmail(e)
    ensures forall i :: 0 <= i < |e| && e[i] == '@' ==> i == IndexOf(e, '@')
    ensures forall i :: 0 <= i < |e| ==> !IsSpace(e[i])
  {
    EmailChars(e);
    var at := IndexOf(e, '@');
    forall i | 0 <= i < |e|
      ensures !IsSpace(e[i]) && (e[i] == '@' ==> i == at)
    {
      if i != at {
        WordOrSepIsNotSpace(e[i]);
      } else {
        assert e[i] == '@';
      }
    }
  }

  /** Separated words on both sides of an '@' leave no separator leading,
      trailing or doubled in the whole. */
  lemma SeparatorsAroundAt(e: string, at: int)
    requires 0 <= at < |e| && e[at] == '@' && SepWord(e[..at]) && SepWord(e[at + 1..])
    ensures 0 < at < |e| - 1
    ensures !IsSep(e[0]) && !IsSep(e[|e| - 1]) && !IsSep(e[at - 1]) && !IsSep(e[at + 1])
    ensures forall i :: 0 <= i < |e| - 1 ==> !(IsSep(e[i]) && IsSep(e[i + 1]))
  {
    var a, d := e[..at], e[at + 1..];
    assert e[0] == a[0] && e[at - 1] == a[|a| - 1];
    WordIsNotSep(a[0]);
    WordIsNotSep(a[|a| - 1]);
    assert e[at + 1] == d[0] && e[|e| - 1] == d[|d| - 1];
    WordIsNotSep(d[0]);
    WordIsNotSep(d[|d| - 1]);
    forall i | 0 <= i < |e| - 1
      ensures !(IsSep(e[i]) && IsSep(e[i + 1]))
    {
      if i + 1 < at {
        assert e[i] == a[i] && e[i + 1] == a[i + 1];
      } else if i > at {
        assert e[i] == d[i - at - 1] && e[i + 1] == d[i - at];
      }
    }
  }

  /** In an accepted address no '.' or '-' leads or trails either side of
      the '@', and none follows another. */
  lemma EmailSeparators(e: string)
    requires IsEmail(e)
    ensures 0 < IndexOf(e, '@') < |e| - 1
    ensures !IsSep(e[0]) && !IsSep(e[|e| - 1])
    ensures !IsSep(e[IndexOf(e, '@') - 1]) && !IsSep(e[IndexOf(e, '@') + 1])
    ensures forall i :: 0 <= i < |e| - 1 ==> !(IsSep(e[i]) && IsSep(e[i + 1]))
  {
    SeparatorsAroundAt(e, IndexOf(e, '@'));
  }

  /** An address with two separators in a row is rejected. */
  lemma DoubleSepRejected(e: string, i: int)
    requires 0 <= i < |e| - 1 && IsSep(e[i]) && IsSep(e[i + 1])
    ensures !IsEmail(e)
  {
    if IsEmail(e) {
      EmailSeparators(e);
    }
  }

  /** An address with two '@' is rejected. */
  lemma SecondAtRejected(e: string, i: int, j: int)
    requires 0 <= i < j < |e| && e[i] == '@' && e[j] == '@'
    ensures !IsEmail(e)
  {
    if IsEmail(e) {
      EmailShape(e);
    }
  }

  /** Trimming leaves an accepted address unchanged. */
  lemma EmailIsTrimmed(e: string)
    requires IsEmail(e)
    ensures Trim(e) == e
  {
    EmailShape(e);
    assert e != [];
    TrimKeepsUnpadded(e);
  }

  lemma LowerCharKeeps(c: char)
    ensures IsWordChar(c) ==> IsWordChar(LowerChar(c))
    ensures LowerChar(c) == '.' <==> c == '.'
    ensures LowerChar(c) == '-' <==> c == '-'
    ensures LowerChar(c) == '@' <==> c == '@'
  {
  }

  lemma LowerKeepsSepWord(s: string)
    requires SepWord(s)
    ensures SepWord(AsciiLower(s))
  {
    var t := AsciiLower(s);
    forall m | 0 <= m < |s|
      ensures IsWordChar(s[m]) ==> IsWordChar(t[m])
      ensures IsSep(t[m]) <==> IsSep(s[m])
    {
      LowerCharKeeps(s[m]);
    }
  }

  /** Lower-casing a run of word characters gives word characters, none of them '.'. */
  lemma LowerKeepsWord(w: string)
    requires AllWord(w)
    ensures AllWord(AsciiLower(w)) && '.' !in AsciiLower(w)
  {
    var t := AsciiLower(w);
    forall m | 0 <= m < |t|
      ensures IsWordChar(t[m]) && t[m] != '.'
    {
      LowerCharKeeps(w[m]);
    }
  }

  lemma LowerKeepsDomain(d: string)
    requires IsDomain(d)
    ensures IsDomain(AsciiLower(d))
  {
    var t := AsciiLower(d);
    var dot := LastIndexOf(d, '.');
    LowerKeepsSepWord(d);
    LowerKeepsEnding(d, dot);
    LastIndexOfIs(t, '.', dot);
    DomainFromParts(t, dot);
  }

  /** Lower-casing keeps the '.' at `dot` and the word characters after it. */
  lemma LowerKeepsEnding(d: string, dot: int)
    requires 0 <= dot < |d| && d[dot] == '.' && AllWord(d[dot + 1..])
    ensures AsciiLower(d)[dot] == '.'
    ensures AllWord(AsciiLower(d)[dot + 1..]) && '.' !in AsciiLower(d)[dot + 1..]
  {
    LowerOfCut(d, dot + 1);
    LowerKeepsWord(d[dot + 1..]);
    LowerCharKeeps(d[dot]);
  }

  lemma DomainFromParts(d: string, dot: int)
    requires SepWord(d) && LastIndexOf(d, '.') == dot && 0 <= dot
    requires 2 <= |d| - dot - 1 <= 3 && AllWord(d[dot + 1..])
    ensures IsDomain(d)
  {
  }

  /** Lower-casing commutes with cutting at `i`. */
  lemma LowerOfCut(s: string, i: int)
    requires 0 <= i <= |s|
    ensures AsciiLower(s)[..i] == AsciiLower(s[..i])
    ensures AsciiLower(s)[i..] == AsciiLower(s[i..])
  {
  }

  /** Lower-casing keeps an address valid: the stored, lower-cased form of
      an accepted address is accepted too. */
  lemma LowerKeepsEmail(e: string)
    requires IsEmail(e)
    ensures IsEmail(AsciiLower(e))
  {
    var at := IndexOf(e, '@');
    var t := AsciiLower(e);
    LowerOfCut(e, at);
    LowerOfCut(e, at + 1);
    LowerKeepsSepWord(e[..at]);
    LowerKeepsDomain(e[at + 1..]);
    LowerCharKeeps(e[at]);
    EmailFromParts(t, at);
  }

  /** A dotted local part and a hyphenated domain are accepted. */
  lemma EmailAccepts()
    ensures IsEmail("ana.p@mail-x.com")
  {
    var e := "ana.p@mail-x.com";
    LocalPartExample();
    DomainExample();
    assert e[..5] == "ana.p" && e[6..] == "mail-x.com";
    EmailFromParts(e, 5);
  }

  lemma LocalPartExample()
    ensures SepWord("ana.p")
  {
  }

  lemma DomainExample()
    ensures IsDomain("mail-x.com")
  {
    LastIndexOfIs("mail-x.com", '.', 6);
    assert "mail-x.com"[7..] == "com";
  }

  /** A doubled '.' is rejected. */
  lemma EmailRejectsDoubleDot()
    ensures !IsEmail("ana..p@mail.com")
  {
    DoubleSepRejected("ana..p@mail.com", 3);
  }

  /** A one-letter ending is rejected. */
  lemma EmailRejectsShortEnding()
    ensures !IsEmail("ana@mail.c")
  {
    var e := "ana@mail.c";
    IndexOfIs(e, '@', 3);
    assert e[4..] == "mail.c";
    LastIndexOfIs("mail.c", '.', 4);
  }

  /** A second '@' is rejected. */
  lemma EmailRejectsSecondAt()
    ensures !IsEmail("a@b@mail.com")
  {
    SecondAtRejected("a@b@mail.com", 1, 3);
  }
}
