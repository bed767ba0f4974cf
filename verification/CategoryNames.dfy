/**
 The derived forms of a category name (app/services/category_service.py), for
 ASCII names: `match_key`, which spellings are compared on, and `slug_for`, the
 public identifier.
 */
module CategoryNames {
  import opened Text

  predicate IsAlnum(c: char) { 'a' <= c <= 'z' || '0' <= c <= '9' }

  /** `" ".join(s.split())`. */
  function Squeeze(s: string): string
  {
    if s == [] then []
    else if IsSpace(s[0]) then Squeeze(s[1..])
    else if |s| > 1 && IsSpace(s[1]) && Squeeze(s[1..]) != [] then [s[0], ' '] + Squeeze(s[1..])
    else [s[0]] + Squeeze(s[1..])
  }

  /** `s.split()`: the maximal runs of non-space characters. */
  function Words(s: string): (words: seq<string>)
    ensures s != [] && !IsSpace(s[0]) ==> words != []
  {
    if s == [] then []
    else if IsSpace(s[0]) then Words(s[1..])
    else if |s| == 1 || IsSpace(s[1]) then [[s[0]]] + Words(s[1..])
    else
      var rest := Words(s[1..]);
      [[s[0]] + rest[0]] + rest[1..]
  }

  function JoinTail(words: seq<string>): string
  {
    if words == [] then [] else ([' '] + words[0]) + JoinTail(words[1..])
  }

  /** `" ".join(words)`. */
  function JoinWords(words: seq<string>): string
  {
    if words == [] then [] else words[0] + JoinTail(words[1..])
  }

  lemma JoinPrepend(w: string, rest: seq<string>)
    ensures JoinWords([w] + rest) == if rest == [] then w else w + ([' '] + JoinWords(rest))
  {
  }

  lemma JoinExtend(c: char, rest: seq<string>)
    requires rest != []
    ensures JoinWords([[c] + rest[0]] + rest[1..]) == [c] + JoinWords(rest)
  {
  }

  lemma {:induction false} NoWordsIffBlank(s: string)
    ensures Squeeze(s) == [] <==> Words(s) == []
  {
    if s != [] { NoWordsIffBlank(s[1..]); }
  }

  /** Squeezing is splitting on spaces and joining with one. */
  lemma {:induction false} SqueezeJoinsWords(s: string)
    ensures Squeeze(s) == JoinWords(Words(s))
  {
    if s != [] {
      var rest := Words(s[1..]);
      SqueezeJoinsWords(s[1..]);
      NoWordsIffBlank(s[1..]);
      if !IsSpace(s[0]) {
        if |s| == 1 || IsSpace(s[1]) {
          JoinPrepend([s[0]], rest);
          assert [s[0], ' '] + JoinWords(rest) == [s[0]] + ([' '] + JoinWords(rest));
        } else {
          JoinExtend(s[0], rest);
        }
      }
    }
  }

  function MatchKey(name: string): string { Lower(Squeeze(name)) }

  predicate IsUpper(c: char) { 'A' <= c <= 'Z' }

  function UpperChar(c: char): char { if 'a' <= c <= 'z' then c - 'a' + 'A' else c }

  /** A word typed all in lower case gets a capital; "BBQ" is left alone. */
  function DisplayWord(w: string): string
  {
    if w == [] || exists i :: 0 <= i < |w| && IsUpper(w[i]) then w else [UpperChar(w[0])] + w[1..]
  }

  function DisplayWords(words: seq<string>): seq<string>
  {
    seq(|words|, i requires 0 <= i < |words| => DisplayWord(words[i]))
  }

  function DisplayName(name: string): string
  {
    var shown := JoinWords(DisplayWords(Words(name)));
    if |shown| <= 80 then shown else shown[..80]
  }

  /** `re.sub(r"[^a-z0-9]+", "-", s)`. */
  function Dashed(s: string): string
  {
    if s == [] then []
    else if IsAlnum(s[0]) then [s[0]] + Dashed(s[1..])
    else if |s| > 1 && !IsAlnum(s[1]) then Dashed(s[1..])
    else ['-'] + Dashed(s[1..])
  }

  function StripLeft(s: string): string
  {
    if s != [] && s[0] == '-' then StripLeft(s[1..]) else s
  }

  function StripRight(s: string): string
  {
    if s != [] && s[|s| - 1] == '-' then StripRight(s[..|s| - 1]) else s
  }

  function Strip(s: string): string { StripRight(StripLeft(s)) }

  function First100(s: string): string { if |s| <= 100 then s else s[..100] }

  predicate IsHex12(s: string)
  {
    |s| == 12 && forall i :: 0 <= i < 12 ==> '0' <= s[i] <= '9' || 'a' <= s[i] <= 'f'
  }

  /** SHA-1 as a number; any function will do. */
  type Digest = string -> nat

  function HexDigit(n: nat): char
    requires n < 16
  {
    if n < 10 then '0' + n as char else 'a' + (n - 10) as char
  }

  /** The last `k` hex digits. */
  function Hex(n: nat, k: nat): (digits: string)
    ensures |digits| == k && forall i :: 0 <= i < k ==> '0' <= digits[i] <= '9' || 'a' <= digits[i] <= 'f'
  {
    if k == 0 then "" else Hex(n / 16, k - 1) + [HexDigit(n % 16)]
  }

  /** `slug_for`, from the match key: for an ASCII name both start from the same
      lower-cased, single-spaced text. */
  function SlugOfKey(key: string, sha: Digest): string
  {
    var slug := Strip(First100(Strip(Dashed(key))));
    if slug != [] then slug else "c-" + Hex(sha(key), 12)
  }

  function SlugFor(name: string, sha: Digest): string { SlugOfKey(MatchKey(name), sha) }

  // --- Squeezing and lower-casing ----------------------------------------------

  /** Single-spaced: no space but ' ', none at either end, no two together. */
  predicate Squeezed(s: string)
  {
    && (forall i :: 0 <= i < |s| && IsSpace(s[i]) ==> s[i] == ' ' && 0 < i < |s| - 1 && !IsSpace(s[i + 1]))
  }

  lemma {:induction false} SqueezeSqueezes(s: string)
    ensures Squeezed(Squeeze(s))
    ensures Squeeze(s) != [] ==> !IsSpace(Squeeze(s)[0])
  {
    if s != [] {
      SqueezeSqueezes(s[1..]);
    }
  }

  lemma {:induction false} SqueezedIsFixed(s: string)
    requires Squeezed(s)
    ensures Squeeze(s) == s
  {
    if s != [] {
      assert !IsSpace(s[0]);
      if |s| > 1 && IsSpace(s[1]) {
        assert !IsSpace(s[1 + 1]);
        assert Squeezed(s[2..]) by {
          forall i | 0 <= i < |s| - 2 && IsSpace(s[2..][i]) ensures 0 < i { assert !IsSpace(s[2]); }
        }
        SqueezedIsFixed(s[2..]);
        assert s[1..][1..] == s[2..];
        assert Squeeze(s[1..]) == s[2..];
        assert s == [s[0], ' '] + s[2..];
      } else {
        assert Squeezed(s[1..]) by { forall i | 0 <= i < |s| - 1 && IsSpace(s[1..][i]) ensures 0 < i { } }
        SqueezedIsFixed(s[1..]);
      }
    }
  }

  lemma {:induction false} SqueezeLowers(s: string)
    ensures Squeeze(Lower(s)) == Lower(Squeeze(s))
  {
    if s != [] {
      assert Lower(s)[1..] == Lower(s[1..]);
      SqueezeLowers(s[1..]);
    }
  }

  /** A stored key is its own match key. */
  lemma MatchKeyIdempotent(name: string)
    ensures MatchKey(MatchKey(name)) == MatchKey(name)
  {
    SqueezeSqueezes(name);
    SqueezedIsFixed(Squeeze(name));
    SqueezeLowers(Squeeze(name));
    LowerTwice(Squeeze(name));
  }

  /** If lower-casing alone yields some name's key, it yields this name's own. */
  lemma LowerIsKey(stored: string, name: string)
    requires Lower(stored) == MatchKey(name)
    ensures MatchKey(stored) == Lower(stored)
  {
    SqueezeLowers(stored);
    SqueezeLowers(name);
    SqueezeSqueezes(Lower(name));
    SqueezedIsFixed(Squeeze(Lower(name)));
  }

  // --- Slugs ----------------------------------------------------------------------

  predicate IsDash(c: char) { c == '-' }

  predicate SlugChars(s: string)
  {
    && (forall i :: 0 <= i < |s| ==> IsAlnum(s[i]) || IsDash(s[i]))
    && (forall i :: 0 < i < |s| ==> IsAlnum(s[i - 1]) || IsAlnum(s[i]))
  }

  /** Slug-shaped: what every stored slug looks like. */
  predicate IsSlug(s: string)
  {
    0 < |s| <= 100 && SlugChars(s) && IsAlnum(s[0]) && IsAlnum(s[|s| - 1])
  }

  lemma {:induction false} DashedHasSlugChars(s: string)
    ensures SlugChars(Dashed(s))
    ensures s != [] && IsAlnum(s[0]) ==> Dashed(s) != [] && IsAlnum(Dashed(s)[0])
    ensures s != [] && !IsAlnum(s[0]) ==> Dashed(s) != [] && IsDash(Dashed(s)[0])
  {
    if s != [] {
      DashedHasSlugChars(s[1..]);
    }
  }

  lemma {:induction false} SlugCharsUndashed(s: string)
    requires SlugChars(s)
    ensures Dashed(s) == s
  {
    if s != [] {
      assert SlugChars(s[1..]) by {
        forall i | 0 < i < |s| - 1
          ensures IsAlnum(s[1..][i - 1]) || IsAlnum(s[1..][i])
        {
          assert IsAlnum(s[i + 1 - 1]) || IsAlnum(s[i + 1]);
        }
      }
      if |s| > 1 { assert IsAlnum(s[1 - 1]) || IsAlnum(s[1]); }
      SlugCharsUndashed(s[1..]);
    }
  }

  lemma {:induction false} StripLeftTrims(s: string)
    requires SlugChars(s)
    ensures SlugChars(StripLeft(s)) && |StripLeft(s)| <= |s|
    ensures StripLeft(s) != [] ==> IsAlnum(StripLeft(s)[0])
  {
  }

  lemma {:induction false} StripRightTrims(s: string)
    requires SlugChars(s)
    ensures SlugChars(StripRight(s)) && StripRight(s) <= s
    ensures StripRight(s) != [] ==> IsAlnum(StripRight(s)[|StripRight(s)| - 1])
  {
  }

  lemma StripTrims(s: string)
    requires SlugChars(s)
    ensures SlugChars(Strip(s)) && |Strip(s)| <= |s|
    ensures Strip(s) != [] ==> IsAlnum(Strip(s)[0]) && IsAlnum(Strip(s)[|Strip(s)| - 1])
  {
    StripLeftTrims(s);
    StripRightTrims(StripLeft(s));
  }

  lemma FallbackIsSlug(hex: string)
    requires IsHex12(hex)
    ensures IsSlug("c-" + hex)
  {
  }

  /** Every slug is slug-shaped, the hash fallback's too. */
  lemma SlugOfKeyIsSlug(key: string, sha: Digest)
    ensures IsSlug(SlugOfKey(key, sha))
  {
    DashedHasSlugChars(key);
    StripTrims(Dashed(key));
    var cut := First100(Strip(Dashed(key)));
    assert SlugChars(cut);
    StripTrims(cut);
    FallbackIsSlug(Hex(sha(key), 12));
  }

  lemma StripKeepsSlug(s: string)
    requires IsSlug(s)
    ensures Strip(s) == s && First100(s) == s
  {
  }

  lemma SlugKeepsItself(s: string, sha: Digest)
    requires IsSlug(s)
    ensures SlugOfKey(s, sha) == s
  {
    SlugCharsUndashed(s);
    StripKeepsSlug(s);
  }

  lemma SlugIsItsKey(s: string)
    requires IsSlug(s)
    ensures MatchKey(s) == s
  {
    assert forall i :: 0 <= i < |s| ==> !IsSpace(s[i]) && LowerChar(s[i]) == s[i];
    SqueezedIsFixed(s);
    assert Lower(s) == s;
  }

  /** A slug is its own match key and its own slug. */
  lemma SlugIsFixed(s: string, sha: Digest)
    requires IsSlug(s)
    ensures MatchKey(s) == s && SlugFor(s, sha) == s
  {
    SlugIsItsKey(s);
    SlugKeepsItself(s, sha);
  }

  /** Whatever text is left of a name, the slug made of it is the slug of itself. */
  lemma SlugOfSlug(text: string, sha: Digest, other: Digest)
    ensures SlugOfKey(SlugOfKey(text, sha), other) == SlugOfKey(text, sha)
  {
    SlugOfKeyIsSlug(text, sha);
    SlugKeepsItself(SlugOfKey(text, sha), other);
  }

  /** `slug_for` is idempotent. */
  lemma SlugForIdempotent(name: string, sha: Digest)
    ensures SlugFor(SlugFor(name, sha), sha) == SlugFor(name, sha)
  {
    SlugOfKeyIsSlug(MatchKey(name), sha);
    SlugIsFixed(SlugFor(name, sha), sha);
  }

  // --- Other spellings of one slug ---------------------------------------------------

  function Bangs(n: nat): string { if n == 0 then [] else ['!'] + Bangs(n - 1) }

  lemma {:induction false} DashedBangs(s: string, n: nat)
    requires SlugChars(s) && (s != [] ==> IsAlnum(s[|s| - 1])) && n > 0
    ensures Dashed(s + Bangs(n)) == s + ['-']
    decreases |s|, n
  {
    var all := s + Bangs(n);
    if s == [] {
      assert all == Bangs(n) && all[1..] == Bangs(n - 1);
      if n > 1 {
        assert [] + Bangs(n - 1) == Bangs(n - 1);
        DashedBangs([], n - 1);
      }
    } else {
      assert all[1..] == s[1..] + Bangs(n);
      assert SlugChars(s[1..]) by {
        forall i | 0 < i < |s| - 1
          ensures IsAlnum(s[1..][i - 1]) || IsAlnum(s[1..][i])
        {
          assert IsAlnum(s[i + 1 - 1]) || IsAlnum(s[i + 1]);
        }
      }
      DashedBangs(s[1..], n);
      if !IsAlnum(s[0]) { assert IsAlnum(s[1 - 1]) || IsAlnum(s[1]); }
    }
  }

  lemma {:induction false} BangsAreBangs(n: nat)
    ensures |Bangs(n)| == n && forall i :: 0 <= i < n ==> Bangs(n)[i] == '!'
  {
    if n > 0 { BangsAreBangs(n - 1); }
  }

  lemma BangedKey(s: string, n: nat)
    requires IsSlug(s)
    ensures MatchKey(s + Bangs(n)) == s + Bangs(n) && |s + Bangs(n)| == |s| + n
  {
    BangsAreBangs(n);
    var name := s + Bangs(n);
    assert forall i :: 0 <= i < |name| ==> !IsSpace(name[i]) && LowerChar(name[i]) == name[i];
    SqueezedIsFixed(name);
    assert Lower(name) == name;
  }

  /** Any number of exclamation marks after a slug leaves its slug unchanged, and
      each number makes a different key. */
  lemma BangedSpelling(s: string, n: nat, sha: Digest)
    requires IsSlug(s) && n > 0
    ensures MatchKey(s + Bangs(n)) == s + Bangs(n) && |s + Bangs(n)| == |s| + n
    ensures SlugFor(s + Bangs(n), sha) == s
  {
    BangedKey(s, n);
    DashedBangs(s, n);
    var dashed := s + ['-'];
    assert StripLeft(dashed) == dashed;
    assert dashed[..|s|] == s;
    StripKeepsSlug(s);
    assert StripRight(dashed) == StripRight(s);
  }

  lemma {:induction false} FirstWordStarts(s: string)
    ensures Words(s) != [] ==> Words(s)[0] != [] && !IsSpace(Words(s)[0][0])
  {
    if s != [] { FirstWordStarts(s[1..]); }
  }

  /** A name that is not blank is not displayed as blank. */
  lemma DisplayNotBlank(name: string)
    requires MatchKey(name) != ""
    ensures MatchKey(DisplayName(name)) != ""
  {
    NoWordsIffBlank(name);
    FirstWordStarts(name);
    var words := Words(name);
    var shown := DisplayWords(words);
    assert !IsSpace(shown[0][0]);
    assert JoinWords(shown)[0] == shown[0][0];
    var display := DisplayName(name);
    assert display != [] && !IsSpace(display[0]);
    assert Squeeze(display) != [];
  }

  // --- What is displayed ---------------------------------------------------------------

  lemma LowerJoins(a: string, b: string)
    ensures Lower(a + b) == Lower(a) + Lower(b)
  {
  }

  lemma DisplayWordLowers(w: string)
    ensures Lower(DisplayWord(w)) == Lower(w)
  {
  }

  lemma {:induction false} TailLowers(words: seq<string>)
    ensures Lower(JoinTail(DisplayWords(words))) == Lower(JoinTail(words))
  {
    if words != [] {
      TailLowers(words[1..]);
      assert DisplayWords(words)[1..] == DisplayWords(words[1..]);
      DisplayWordLowers(words[0]);
      LowerJoins([' '] + words[0], JoinTail(words[1..]));
      LowerJoins([' '] + DisplayWord(words[0]), JoinTail(DisplayWords(words[1..])));
      LowerJoins([' '], words[0]);
      LowerJoins([' '], DisplayWord(words[0]));
    }
  }

  /** A displayed name is a spelling of the name it came from: lower-cased, it is that
      name's key, as far as 80 characters go. */
  lemma DisplayIsSpelling(name: string)
    ensures
      var key := MatchKey(name);
      Lower(DisplayName(name)) == if |key| <= 80 then key else key[..80]
    ensures |MatchKey(name)| <= 80 ==> MatchKey(DisplayName(name)) == MatchKey(name)
  {
    SqueezeJoinsWords(name);
    var words := Words(name);
    var shown := JoinWords(DisplayWords(words));
    if words != [] {
      TailLowers(words[1..]);
      assert DisplayWords(words)[1..] == DisplayWords(words[1..]);
      DisplayWordLowers(words[0]);
      LowerJoins(words[0], JoinTail(words[1..]));
      LowerJoins(DisplayWord(words[0]), JoinTail(DisplayWords(words[1..])));
    }
    assert Lower(shown) == MatchKey(name);
    if |MatchKey(name)| <= 80 { LowerIsKey(DisplayName(name), name); }
  }

  /** Of its words, those typed all in lower case get a capital, and no other letter of
      any word changes. */
  lemma DisplayCapitalises(name: string, i: nat)
    requires i < |Words(name)| && Words(name)[i] != ""
    ensures
      var word, shown := Words(name)[i], DisplayWords(Words(name))[i];
      && |shown| == |word| && shown[1..] == word[1..]
      && (shown[0] != word[0] <==> Lower(word) == word && 'a' <= word[0] <= 'z')
      && (Lower(word) == word ==> !('a' <= shown[0] <= 'z'))
  {
    var word := Words(name)[i];
    if j :| 0 <= j < |word| && IsUpper(word[j]) {
      assert Lower(word)[j] != word[j];
    } else {
      forall j | 0 <= j < |word|
        ensures Lower(word)[j] == word[j]
      {
        assert !IsUpper(word[j]);
      }
    }
  }
}
