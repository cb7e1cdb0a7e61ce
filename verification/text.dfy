/**
 * The string operations the application leans on: Python's `str.strip`,
 * `str.lower`, `str.split`, decimal formatting of integers in f-strings,
 * and Django's `slugify`. Strings are sequences of characters.
 */
module Text {

  /** Characters for which Python's `str.isspace()` holds; `strip()`, `split()`
      and the regular expression class `\s` all use this set. */
  predicate IsSpace(c: char) {
    || c == ' '
    || ('\t' <= c <= '\r')
    || ('\U{1c}' <= c <= '\U{1f}')
    || c == '\U{85}' || c == '\U{a0}' || c == '\U{1680}'
    || ('\U{2000}' <= c <= '\U{200a}')
    || c == '\U{2028}' || c == '\U{2029}' || c == '\U{202f}' || c == '\U{205f}'
    || c == '\U{3000}'
  }

  predicate IsUpperAscii(c: char) { 'A' <= c <= 'Z' }

  predicate IsAscii(c: char) { c <= '\U{7f}' }

  predicate IsDigit(c: char) { '0' <= c <= '9' }

  /** `s` with every leading character satisfying `p` removed. */
  function TrimStart(s: string, p: char -> bool): (r: string)
    ensures |r| <= |s|
    ensures s != [] && p(s[0]) ==> |r| < |s|
    ensures r == [] || !p(r[0])
    ensures forall i :: 0 <= i < |s| - |r| ==> p(s[i])
  {
    if s == [] || !p(s[0]) then s else TrimStart(s[1..], p)
  }

  /** What `TrimStart` keeps is a suffix of its input. */
  lemma {:induction false} TrimStartIsSuffix(s: string, p: char -> bool)
    ensures TrimStart(s, p) == s[|s| - |TrimStart(s, p)|..]
  {
    if s != [] && p(s[0]) {
      TrimStartIsSuffix(s[1..], p);
    }
  }

  /** `s` with every trailing character satisfying `p` removed. */
  function TrimEnd(s: string, p: char -> bool): (r: string)
    ensures |r| <= |s|
    ensures r == [] || !p(r[|r| - 1])
    ensures forall i :: |r| <= i < |s| ==> p(s[i])
  {
    if s == [] || !p(s[|s| - 1]) then s else TrimEnd(s[..|s| - 1], p)
  }

  /** What `TrimEnd` keeps is a prefix of its input. */
  lemma {:induction false} TrimEndIsPrefix(s: string, p: char -> bool)
    ensures TrimEnd(s, p) == s[..|TrimEnd(s, p)|]
  {
    if s != [] && p(s[|s| - 1]) {
      TrimEndIsPrefix(s[..|s| - 1], p);
    }
  }

  /** Where the stripped text starts: the count of leading white space. */
  function StripStart(s: string): (k: nat)
    ensures k <= |s|
    ensures forall i :: 0 <= i < k ==> IsSpace(s[i])
  {
    |s| - |TrimStart(s, IsSpace)|
  }

  /** Python's `s.strip()` with no argument; `StripIsSlice` states which
      part of the text it keeps. */
  function Strip(s: string): (r: string)
    ensures r == [] || (!IsSpace(r[0]) && !IsSpace(r[|r| - 1]))
  {
    var t := TrimStart(s, IsSpace);
    var r := TrimEnd(t, IsSpace);
    TrimEndIsPrefix(t, IsSpace);
    assert r != [] ==> r[0] == t[0];
    r
  }

  /** A prefix of a suffix is a middle slice. */
  lemma SliceOfSuffix(s: string, k: nat, n: nat)
    requires k + n <= |s|
    ensures s[k..][..n] == s[k..k + n]
  {
  }

  /** What `strip()` keeps is exactly the text between the leading and the
      trailing white space: one contiguous run of the input, with only white
      space before and after it, and no white space at either of its ends. */
  lemma StripIsSlice(s: string)
    ensures Strip(s) == [] || (!IsSpace(Strip(s)[0]) && !IsSpace(Strip(s)[|Strip(s)| - 1]))
    ensures StripStart(s) + |Strip(s)| <= |s|
    ensures Strip(s) == s[StripStart(s)..StripStart(s) + |Strip(s)|]
    ensures forall i :: 0 <= i < StripStart(s) ==> IsSpace(s[i])
    ensures forall i :: StripStart(s) + |Strip(s)| <= i < |s| ==> IsSpace(s[i])
  {
    var t := TrimStart(s, IsSpace);
    var r := TrimEnd(t, IsSpace);
    var k := |s| - |t|;
    assert r == Strip(s) && k == StripStart(s);
    TrimStartIsSuffix(s, IsSpace);
    TrimEndIsPrefix(t, IsSpace);
    SliceOfSuffix(s, k, |r|);
  }

  lemma StripIdempotent(s: string)
    ensures Strip(Strip(s)) == Strip(s)
  {
  }

  function LowerChar(c: char): (d: char)
    ensures !IsUpperAscii(d)
    ensures IsUpperAscii(c) || d == c
  {
    if IsUpperAscii(c) then (c as int + 32) as char else c
  }

  /** Python's `s.lower()`, restricted to the ASCII letters. */
  function Lower(s: string): (r: string)
    ensures |r| == |s|
    ensures forall i :: 0 <= i < |s| ==> r[i] == LowerChar(s[i])
    ensures forall i :: 0 <= i < |s| ==> !IsUpperAscii(r[i])
    ensures forall i :: 0 <= i < |s| && !IsUpperAscii(s[i]) ==> r[i] == s[i]
  {
    seq(|s|, i requires 0 <= i < |s| => LowerChar(s[i]))
  }

  lemma LowerIdempotent(s: string)
    ensures Lower(Lower(s)) == Lower(s)
  {
  }

  /** True when `s.split()` yields no word at all. */
  predicate IsBlank(s: string) {
    forall i :: 0 <= i < |s| ==> IsSpace(s[i])
  }

  lemma BlankIffStripsToEmpty(s: string)
    ensures IsBlank(s) <==> Strip(s) == []
  {
    var t := TrimStart(s, IsSpace);
    TrimStartIsSuffix(s, IsSpace);
    TrimEndIsPrefix(t, IsSpace);
    if t != [] {
      assert !IsSpace(s[|s| - |t|]);
    }
  }

  function DigitChar(d: nat): (c: char)
    requires d < 10
    ensures IsDigit(c)
  {
    ('0' as int + d) as char
  }

  /** How an f-string renders a non-negative integer: its decimal digits. */
  function Decimal(n: nat): (r: string)
    ensures r != []
    ensures forall i :: 0 <= i < |r| ==> IsDigit(r[i])
    ensures n < 10 <==> |r| == 1
  {
    if n < 10 then [DigitChar(n)] else Decimal(n / 10) + [DigitChar(n % 10)]
  }

  /** Distinct numbers are printed differently. */
  lemma {:induction false} DecimalInjective(a: nat, b: nat)
    requires Decimal(a) == Decimal(b)
    ensures a == b
  {
    if a >= 10 && b >= 10 {
      var da, db := Decimal(a), Decimal(b);
      assert da[..|da| - 1] == Decimal(a / 10);
      assert db[..|db| - 1] == Decimal(b / 10);
      DecimalInjective(a / 10, b / 10);
      assert da[|da| - 1] == DigitChar(a % 10);
      assert db[|db| - 1] == DigitChar(b % 10);
    }
  }

  /** Removes the characters that fail `p`, keeping the order of the rest. */
  function Keep(s: string, p: char -> bool): (r: string)
    ensures |r| <= |s|
    ensures forall i :: 0 <= i < |r| ==> p(r[i])
    ensures forall c :: c in r <==> c in s && p(c)
  {
    if s == [] then [] else (if p(s[0]) then [s[0]] else []) + Keep(s[1..], p)
  }

  lemma {:induction false} KeepAll(s: string, p: char -> bool)
    requires forall i :: 0 <= i < |s| ==> p(s[i])
    ensures Keep(s, p) == s
  {
    if s != [] {
      KeepAll(s[1..], p);
    }
  }

  /** The characters a slug is made of, once lower-cased: `\w` in ASCII, whitespace and '-'. */
  predicate IsSlugSource(c: char) {
    ('a' <= c <= 'z') || IsDigit(c) || c == '_' || c == '-' || (IsAscii(c) && IsSpace(c))
  }

  predicate IsDashOrSpace(c: char) { c == '-' || (IsAscii(c) && IsSpace(c)) }

  predicate IsDashOrUnderscore(c: char) { c == '-' || c == '_' }

  /** Replaces every maximal run of '-' and whitespace by a single '-'. */
  function CollapseDashes(s: string): (r: string)
    ensures forall i :: 0 <= i < |r| ==> !(IsAscii(r[i]) && IsSpace(r[i]))
    ensures forall i :: 0 <= i < |r| ==> r[i] in s || r[i] == '-'
    ensures NoDoubleDash(r)
    ensures s != [] && !IsDashOrSpace(s[0]) ==> r != [] && r[0] == s[0]
    decreases |s|
  {
    if s == [] then []
    else if IsDashOrSpace(s[0]) then
      var rest := TrimStart(s, IsDashOrSpace);
      TrimStartIsSuffix(s, IsDashOrSpace);
      ['-'] + CollapseDashes(rest)
    else
      [s[0]] + CollapseDashes(s[1..])
  }

  /** No '-' is directly followed by another '-'. */
  predicate NoDoubleDash(s: string) {
    forall i :: 0 <= i < |s| - 1 ==> !(s[i] == '-' && s[i + 1] == '-')
  }

  predicate IsSlugChar(c: char) {
    ('a' <= c <= 'z') || IsDigit(c) || c == '_' || c == '-'
  }

  /** A string `slugify` can return. */
  predicate IsSlug(s: string) {
    && (forall i :: 0 <= i < |s| ==> IsSlugChar(s[i]))
    && NoDoubleDash(s)
    && (s == [] || (!IsDashOrUnderscore(s[0]) && !IsDashOrUnderscore(s[|s| - 1])))
  }

  /** The ASCII characters of `s`, lower-cased, without those a slug drops. */
  function SlugSource(s: string): (r: string)
    ensures forall i :: 0 <= i < |r| ==> IsSlugSource(r[i])
  {
    Keep(Lower(Keep(s, IsAscii)), IsSlugSource)
  }

  /** Collapsing the slug source leaves only slug characters. */
  lemma CollapsedIsSlugChars(source: string)
    requires forall i :: 0 <= i < |source| ==> IsSlugSource(source[i])
    ensures forall i :: 0 <= i < |CollapseDashes(source)| ==> IsSlugChar(CollapseDashes(source)[i])
  {
    var collapsed := CollapseDashes(source);
    forall i | 0 <= i < |collapsed|
      ensures IsSlugChar(collapsed[i])
    {
      assert collapsed[i] in source || collapsed[i] == '-';
    }
  }

  /** Strips '-' and '_' from both ends of a collapsed string. */
  function StripDashes(s: string): (r: string)
    requires forall i :: 0 <= i < |s| ==> IsSlugChar(s[i])
    requires NoDoubleDash(s)
    ensures IsSlug(r)
  {
    var t := TrimStart(s, IsDashOrUnderscore);
    var r := TrimEnd(t, IsDashOrUnderscore);
    TrimStartIsSuffix(s, IsDashOrUnderscore);
    TrimEndIsPrefix(t, IsDashOrUnderscore);
    SliceKeepsNoDoubleDash(s, t, r);
    r
  }

  /** Django's `slugify` on ASCII text: lower-case, drop everything but word
      characters, whitespace and '-', collapse runs of '-' and whitespace into
      one '-', and strip '-' and '_' from both ends. The letters and digits of
      the ASCII part of the input all survive, lower-cased and in their order,
      and no other letter or digit appears. `SlugifyKeepsWords` and
      `SlugifyJoinsWords` state where '_' and '-' go. */
  function Slugify(s: string): (r: string)
    ensures IsSlug(r)
    ensures Keep(r, IsLowerAlnum) == Keep(Lower(Keep(s, IsAscii)), IsLowerAlnum)
  {
    var source := SlugSource(s);
    var collapsed := CollapseDashes(source);
    SlugSourceKeeps(Lower(Keep(s, IsAscii)), IsLowerAlnum);
    CollapseKeeps(source, IsLowerAlnum);
    CollapsedIsSlugChars(source);
    StripDashesKeepsAlnum(collapsed);
    StripDashes(collapsed)
  }


  /** A lower-case ASCII letter or a decimal digit. */
  predicate IsLowerAlnum(c: char) { ('a' <= c <= 'z') || IsDigit(c) }

  /** `\w` on lower-case ASCII text: a letter, a digit or '_'. */
  predicate IsWordChar(c: char) { IsLowerAlnum(c) || c == '_' }

  predicate IsUnderscore(c: char) { c == '_' }

  lemma {:induction false} KeepConcat(a: string, b: string, p: char -> bool)
    ensures Keep(a + b, p) == Keep(a, p) + Keep(b, p)
  {
    if a == [] {
      assert a + b == b;
    } else {
      assert (a + b)[0] == a[0];
      assert (a + b)[1..] == a[1..] + b;
      KeepConcat(a[1..], b, p);
    }
  }

  lemma {:induction false} KeepNone(a: string, p: char -> bool)
    requires forall i :: 0 <= i < |a| ==> !p(a[i])
    ensures Keep(a, p) == []
  {
    if a != [] {
      KeepNone(a[1..], p);
    }
  }

  /** Dropping the characters a slug cannot hold keeps every character of a
      class the slug can hold. */
  lemma {:induction false} SlugSourceKeeps(s: string, p: char -> bool)
    requires forall c :: p(c) ==> IsSlugSource(c)
    ensures Keep(Keep(s, IsSlugSource), p) == Keep(s, p)
  {
    if s != [] {
      SlugSourceKeeps(s[1..], p);
      KeepConcat(if IsSlugSource(s[0]) then [s[0]] else [], Keep(s[1..], IsSlugSource), p);
    }
  }

  /** Dropping a prefix that holds nothing `p` keeps does not change what is kept. */
  lemma {:induction false} KeepAfterPrefix(s: string, k: nat, p: char -> bool)
    requires k <= |s|
    requires forall i :: 0 <= i < k ==> !p(s[i])
    ensures Keep(s, p) == Keep(s[k..], p)
  {
    if k > 0 {
      assert s[1..][k - 1..] == s[k..];
      KeepAfterPrefix(s[1..], k - 1, p);
    }
  }

  /** Dropping a suffix that holds nothing `p` keeps does not change what is kept. */
  lemma {:induction false} KeepBeforeSuffix(s: string, k: nat, p: char -> bool)
    requires k <= |s|
    requires forall i :: k <= i < |s| ==> !p(s[i])
    ensures Keep(s, p) == Keep(s[..k], p)
  {
    if k == 0 {
      KeepNone(s, p);
    } else {
      assert s[..k][1..] == s[1..][..k - 1];
      KeepBeforeSuffix(s[1..], k - 1, p);
    }
  }

  /** A leading run of '-' and white space holds nothing of a class without
      '-' and white space. */
  lemma DashRunKeeps(s: string, p: char -> bool)
    requires forall c :: p(c) ==> !IsDashOrSpace(c)
    ensures |TrimStart(s, IsDashOrSpace)| <= |s|
    ensures Keep(TrimStart(s, IsDashOrSpace), p) == Keep(s, p)
  {
    TrimStartIsSuffix(s, IsDashOrSpace);
    KeepAfterPrefix(s, |s| - |TrimStart(s, IsDashOrSpace)|, p);
  }

  /** Collapsing runs of '-' and white space keeps every character of a
      class without '-' and white space. */
  lemma {:induction false} CollapseKeeps(s: string, p: char -> bool)
    requires forall c :: p(c) ==> !IsDashOrSpace(c)
    ensures Keep(CollapseDashes(s), p) == Keep(s, p)
    decreases |s|
  {
    if s != [] {
      if IsDashOrSpace(s[0]) {
        var rest := TrimStart(s, IsDashOrSpace);
        DashRunKeeps(s, p);
        CollapseKeeps(rest, p);
        KeepConcat(['-'], CollapseDashes(rest), p);
      } else {
        CollapseKeeps(s[1..], p);
        KeepConcat([s[0]], CollapseDashes(s[1..]), p);
      }
    }
  }

  lemma TrimStartDashesKeepsAlnum(s: string)
    ensures Keep(TrimStart(s, IsDashOrUnderscore), IsLowerAlnum) == Keep(s, IsLowerAlnum)
  {
    TrimStartIsSuffix(s, IsDashOrUnderscore);
    KeepAfterPrefix(s, |s| - |TrimStart(s, IsDashOrUnderscore)|, IsLowerAlnum);
  }

  lemma TrimEndDashesKeepsAlnum(t: string)
    ensures Keep(TrimEnd(t, IsDashOrUnderscore), IsLowerAlnum) == Keep(t, IsLowerAlnum)
  {
    TrimEndIsPrefix(t, IsDashOrUnderscore);
    KeepBeforeSuffix(t, |TrimEnd(t, IsDashOrUnderscore)|, IsLowerAlnum);
  }

  /** Stripping '-' and '_' from the ends keeps every letter and digit. */
  lemma StripDashesKeepsAlnum(s: string)
    requires forall i :: 0 <= i < |s| ==> IsSlugChar(s[i])
    requires NoDoubleDash(s)
    ensures Keep(StripDashes(s), IsLowerAlnum) == Keep(s, IsLowerAlnum)
  {
    var t := TrimStart(s, IsDashOrUnderscore);
    TrimStartDashesKeepsAlnum(s);
    TrimEndDashesKeepsAlnum(t);
  }

  /** Trimming '-' and '_' from the front of a string of slug characters
      trims exactly the leading '_' from its word characters. */
  lemma {:induction false} TrimStartKeepsWords(t: string)
    requires forall i :: 0 <= i < |t| ==> IsSlugChar(t[i])
    ensures Keep(TrimStart(t, IsDashOrUnderscore), IsWordChar) == TrimStart(Keep(t, IsWordChar), IsUnderscore)
  {
    if t != [] {
      var rest := Keep(t[1..], IsWordChar);
      if IsDashOrUnderscore(t[0]) {
        assert TrimStart(t, IsDashOrUnderscore) == TrimStart(t[1..], IsDashOrUnderscore);
        TrimStartKeepsWords(t[1..]);
        if t[0] == '_' {
          assert Keep(t, IsWordChar) == ['_'] + rest;
          assert (['_'] + rest)[1..] == rest;
        } else {
          assert Keep(t, IsWordChar) == rest;
        }
      } else {
        assert Keep(t, IsWordChar) == [t[0]] + rest;
      }
    }
  }

  /** A trailing '_' is trimmed; a trailing character of another kind stops the trim. */
  lemma TrimEndLast(front: string, c: char)
    ensures c == '_' ==> TrimEnd(front + [c], IsUnderscore) == TrimEnd(front, IsUnderscore)
    ensures c != '_' ==> TrimEnd(front + [c], IsUnderscore) == front + [c]
  {
    assert (front + [c])[..|front|] == front;
  }

  /** `t` is `init` followed by one character. */
  lemma SplitLast(t: string, p: char -> bool)
    requires t != []
    ensures Keep(t, p) == Keep(t[..|t| - 1], p) + Keep([t[|t| - 1]], p)
    ensures p(t[|t| - 1]) ==> Keep([t[|t| - 1]], p) == [t[|t| - 1]]
    ensures !p(t[|t| - 1]) ==> Keep([t[|t| - 1]], p) == []
  {
    assert t == t[..|t| - 1] + [t[|t| - 1]];
    KeepConcat(t[..|t| - 1], [t[|t| - 1]], p);
  }

  /** Trimming '-' and '_' from the back of a string of slug characters
      trims exactly the trailing '_' from its word characters. */
  lemma {:induction false} TrimEndKeepsWords(t: string)
    requires forall i :: 0 <= i < |t| ==> IsSlugChar(t[i])
    ensures Keep(TrimEnd(t, IsDashOrUnderscore), IsWordChar) == TrimEnd(Keep(t, IsWordChar), IsUnderscore)
    decreases |t|
  {
    if t != [] {
      var init := t[..|t| - 1];
      if IsDashOrUnderscore(t[|t| - 1]) {
        assert forall i :: 0 <= i < |init| ==> init[i] == t[i];
        TrimEndKeepsWords(init);
        TrimEndDashStep(t);
      } else {
        TrimEndWordStep(t);
      }
    }
  }

  /** A trailing '-' or '_' is trimmed from both sides alike. */
  lemma TrimEndDashStep(t: string)
    requires t != [] && IsDashOrUnderscore(t[|t| - 1])
    ensures TrimEnd(t, IsDashOrUnderscore) == TrimEnd(t[..|t| - 1], IsDashOrUnderscore)
    ensures TrimEnd(Keep(t, IsWordChar), IsUnderscore) == TrimEnd(Keep(t[..|t| - 1], IsWordChar), IsUnderscore)
  {
    var last := t[|t| - 1];
    var front := Keep(t[..|t| - 1], IsWordChar);
    SplitLast(t, IsWordChar);
    if last == '_' {
      assert Keep(t, IsWordChar) == front + [last];
      TrimEndLast(front, last);
    } else {
      assert !IsWordChar(last);
      assert Keep(t, IsWordChar) == front;
    }
  }

  /** A trailing letter or digit stops both trims. */
  lemma TrimEndWordStep(t: string)
    requires t != [] && IsSlugChar(t[|t| - 1]) && !IsDashOrUnderscore(t[|t| - 1])
    ensures TrimEnd(t, IsDashOrUnderscore) == t
    ensures TrimEnd(Keep(t, IsWordChar), IsUnderscore) == Keep(t, IsWordChar)
  {
    var last := t[|t| - 1];
    SplitLast(t, IsWordChar);
    TrimEndLast(Keep(t[..|t| - 1], IsWordChar), last);
  }

  /** What `StripDashes` keeps of the word characters: all of them, less the
      '_' at either end. */
  lemma StripDashesKeepsWords(s: string)
    requires forall i :: 0 <= i < |s| ==> IsSlugChar(s[i])
    requires NoDoubleDash(s)
    ensures Keep(StripDashes(s), IsWordChar) ==
      TrimEnd(TrimStart(Keep(s, IsWordChar), IsUnderscore), IsUnderscore)
  {
    var t := TrimStart(s, IsDashOrUnderscore);
    assert StripDashes(s) == TrimEnd(t, IsDashOrUnderscore);
    TrimStartKeepsSlugChars(s);
    TrimStartKeepsWords(s);
    TrimEndKeepsWords(t);
  }

  lemma TrimStartKeepsSlugChars(s: string)
    requires forall i :: 0 <= i < |s| ==> IsSlugChar(s[i])
    ensures forall i :: 0 <= i < |TrimStart(s, IsDashOrUnderscore)| ==> IsSlugChar(TrimStart(s, IsDashOrUnderscore)[i])
  {
    var t := TrimStart(s, IsDashOrUnderscore);
    TrimStartIsSuffix(s, IsDashOrUnderscore);
    assert forall i :: 0 <= i < |t| ==> t[i] == s[|s| - |t| + i];
  }

  /** The '_' of the input survive `slugify`, except those at either end of
      its word characters: dropping the dashes from the slug leaves exactly
      the input's lower-cased ASCII word characters, less leading and
      trailing '_'. So "a_b" keeps its '_'. */
  lemma SlugifyKeepsWords(s: string)
    ensures Keep(Slugify(s), IsWordChar) ==
      TrimEnd(TrimStart(Keep(Lower(Keep(s, IsAscii)), IsWordChar), IsUnderscore), IsUnderscore)
  {
    var source := SlugSource(s);
    var collapsed := CollapseDashes(source);
    assert Slugify(s) == StripDashes(collapsed);
    SlugSourceKeeps(Lower(Keep(s, IsAscii)), IsWordChar);
    CollapseKeeps(source, IsWordChar);
    CollapsedIsSlugChars(source);
    StripDashesKeepsWords(collapsed);
  }

  /** Collapsing leaves a leading word without '-' or white space as it is. */
  lemma {:induction false} CollapseAfterWord(a: string, rest: string)
    requires forall i :: 0 <= i < |a| ==> !IsDashOrSpace(a[i])
    ensures CollapseDashes(a + rest) == a + CollapseDashes(rest)
  {
    if a == [] {
      assert a + rest == rest;
    } else {
      var x := a + rest;
      assert x[0] == a[0];
      assert x[1..] == a[1..] + rest;
      assert CollapseDashes(x) == [a[0]] + CollapseDashes(a[1..] + rest);
      CollapseAfterWord(a[1..], rest);
      assert [a[0]] + (a[1..] + CollapseDashes(rest)) == a + CollapseDashes(rest);
    }
  }

  lemma ConcatAssoc(a: string, m: string, b: string)
    ensures a + m + b == a + (m + b)
  {
  }

  /** A space before a word that collapses to itself becomes one '-'. */
  lemma CollapseSpaceThen(b: string)
    requires b != [] && IsLowerAlnum(b[0]) && CollapseDashes(b) == b
    ensures CollapseDashes(" " + b) == "-" + b
  {
    var tail := " " + b;
    assert tail[0] == ' ' && tail[1..] == b;
    assert TrimStart(b, IsDashOrSpace) == b;
    assert TrimStart(tail, IsDashOrSpace) == TrimStart(b, IsDashOrSpace);
  }

  /** A space between two words collapses to one '-'. */
  lemma CollapseWords(a: string, b: string)
    requires b != []
    requires forall i :: 0 <= i < |a| ==> IsLowerAlnum(a[i])
    requires forall i :: 0 <= i < |b| ==> IsLowerAlnum(b[i])
    ensures CollapseDashes(a + " " + b) == a + "-" + b
  {
    ConcatAssoc(a, " ", b);
    ConcatAssoc(a, "-", b);
    WordCollapses(b);
    CollapseSpaceThen(b);
    WordHasNoDash(a);
    CollapseAfterWord(a, " " + b);
  }

  lemma WordHasNoDash(a: string)
    requires forall i :: 0 <= i < |a| ==> IsLowerAlnum(a[i])
    ensures forall i :: 0 <= i < |a| ==> !IsDashOrSpace(a[i])
  {
  }

  /** A word of letters and digits is left alone by collapsing. */
  lemma WordCollapses(b: string)
    requires forall i :: 0 <= i < |b| ==> IsLowerAlnum(b[i])
    ensures CollapseDashes(b) == b
  {
    assert forall i :: 0 <= i < |b| ==> !(IsAscii(b[i]) && IsSpace(b[i]));
    assert NoDoubleDash(b);
    CollapseSlug(b);
  }

  /** Lower-case letters, digits and spaces pass the first steps of `slugify` unchanged. */
  lemma SlugSourceOfWords(s: string)
    requires forall i :: 0 <= i < |s| ==> s[i] == ' ' || IsLowerAlnum(s[i])
    ensures SlugSource(s) == s
  {
    KeepAll(s, IsAscii);
    LowerUnchanged(s);
    KeepAll(s, IsSlugSource);
  }

  /** Two words of letters and digits separated by a space slugify to the
      two words joined by '-': "john smith" becomes "john-smith". */
  lemma SlugifyJoinsWords(a: string, b: string)
    requires a != [] && b != []
    requires forall i :: 0 <= i < |a| ==> IsLowerAlnum(a[i])
    requires forall i :: 0 <= i < |b| ==> IsLowerAlnum(b[i])
    ensures Slugify(a + " " + b) == a + "-" + b
  {
    var s := a + " " + b;
    assert forall i :: 0 <= i < |s| ==> s[i] == ' ' || IsLowerAlnum(s[i]);
    SlugSourceOfWords(s);
    CollapseWords(a, b);
    var j := a + "-" + b;
    assert Slugify(s) == StripDashes(j);
    assert TrimStart(j, IsDashOrUnderscore) == j;
    assert TrimEnd(j, IsDashOrUnderscore) == j;
  }

  lemma SliceKeepsNoDoubleDash(s: string, t: string, r: string)
    requires NoDoubleDash(s)
    requires |t| <= |s| && t == s[|s| - |t|..]
    requires |r| <= |t| && r == t[..|r|]
    ensures forall i :: 0 <= i < |r| ==> r[i] in s
    ensures NoDoubleDash(r)
  {
    var k := |s| - |t|;
    forall i | 0 <= i < |r|
      ensures r[i] == s[k + i]
    {
    }
  }

  /** A slug collapses to itself. */
  lemma {:induction false} CollapseSlug(s: string)
    requires forall i :: 0 <= i < |s| ==> !(IsAscii(s[i]) && IsSpace(s[i]))
    requires NoDoubleDash(s)
    ensures CollapseDashes(s) == s
    decreases |s|
  {
    if s != [] {
      CollapseSlug(s[1..]);
      if IsDashOrSpace(s[0]) {
        assert TrimStart(s, IsDashOrSpace) == s[1..] by {
          assert TrimStart(s, IsDashOrSpace) == TrimStart(s[1..], IsDashOrSpace);
        }
      }
    }
  }

  lemma LowerUnchanged(s: string)
    requires forall i :: 0 <= i < |s| ==> !IsUpperAscii(s[i])
    ensures Lower(s) == s
  {
  }

  lemma SlugSourceOfSlug(s: string)
    requires IsSlug(s)
    ensures SlugSource(s) == s
  {
    KeepAll(s, IsAscii);
    LowerUnchanged(s);
    KeepAll(s, IsSlugSource);
  }

  /** `slugify` leaves a slug unchanged, so applying it twice is applying it once. */
  lemma SlugFixpoint(s: string)
    requires IsSlug(s)
    ensures Slugify(s) == s
  {
    SlugSourceOfSlug(s);
    CollapseSlug(s);
    assert StripDashes(s) == s;
  }

  lemma SlugifyIdempotent(s: string)
    ensures Slugify(Slugify(s)) == Slugify(s)
  {
    SlugFixpoint(Slugify(s));
  }
}
