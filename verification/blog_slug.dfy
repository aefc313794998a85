/**
 * The `createSlug` helper of the blog manager page
 * (Admin/src/pages/BlogList.jsx): the URL slug derived from a blog title.
 */
module BlogSlug {
  import opened Text

  /** The characters `/[^a-z0-9\s-]/g` leaves in place. */
  predicate Allowed(c: char) {
    IsLowerAlnum(c) || IsSpace(c) || c == '-'
  }

  /** A slug character: a lower-case letter, a digit or a hyphen. */
  predicate SlugChar(c: char) {
    IsLowerAlnum(c) || c == '-'
  }

  predicate AllSlugChars(s: string) {
    forall i :: 0 <= i < |s| ==> SlugChar(s[i])
  }

  /** `.replace(/[^a-z0-9\s-]/g, '')` */
  function StripDisallowed(s: string): string {
    if s == [] then [] else (if Allowed(s[0]) then [s[0]] else []) + StripDisallowed(s[1..])
  }

  /** `.replace(/\s+/g, '-')`: every maximal run of white space becomes one hyphen. */
  function HyphenateSpaces(s: string): string
    decreases |s|
  {
    if s == [] then []
    else if IsSpace(s[0]) then "-" + HyphenateSpaces(TrimStart(s[1..]))
    else [s[0]] + HyphenateSpaces(s[1..])
  }

  /** `title.toLowerCase().trim().replace(/[^a-z0-9\s-]/g, '').replace(/\s+/g, '-')` */
  function CreateSlug(title: string): string {
    HyphenateSpaces(StripDisallowed(Trim(ToLower(title))))
  }

  // ---------------------------------------------------------------------------
  // The stages

  /** Only allowed characters survive the strip. */
  lemma {:induction false} StripLeavesAllowed(s: string)
    ensures forall i :: 0 <= i < |StripDisallowed(s)| ==> Allowed(StripDisallowed(s)[i])
  {
    if s != [] {
      StripLeavesAllowed(s[1..]);
      var rest := StripDisallowed(s[1..]);
      if Allowed(s[0]) {
        assert StripDisallowed(s) == [s[0]] + rest;
      } else {
        assert StripDisallowed(s) == rest;
      }
    }
  }

  /** A string of allowed characters is kept whole by the strip. */
  lemma {:induction false} StripKeepsAllowed(s: string)
    requires forall i :: 0 <= i < |s| ==> Allowed(s[i])
    ensures StripDisallowed(s) == s
  {
    if s != [] {
      assert Allowed(s[0]);
      StripKeepsAllowed(s[1..]);
    }
  }

  /** The strip works character by character, so it distributes over concatenation. */
  lemma {:induction false} StripAppend(a: string, b: string)
    ensures StripDisallowed(a + b) == StripDisallowed(a) + StripDisallowed(b)
  {
    if a == [] {
      assert a + b == b;
    } else {
      var c := if Allowed(a[0]) then [a[0]] else [];
      assert (a + b)[0] == a[0];
      assert (a + b)[1..] == a[1..] + b;
      assert StripDisallowed(a + b) == c + StripDisallowed(a[1..] + b);
      StripAppend(a[1..], b);
      assert StripDisallowed(a) == c + StripDisallowed(a[1..]);
    }
  }

  /** Every character of `r` is a non-space that is a hyphen or occurs in `s`. */
  predicate FromInput(r: string, s: string) {
    forall i :: 0 <= i < |r| ==> !IsSpace(r[i]) && (r[i] == '-' || r[i] in s)
  }

  /** After hyphenation no white space is left and every other character comes from the input. */
  lemma {:induction false} HyphenateChars(s: string)
    ensures FromInput(HyphenateSpaces(s), s)
    decreases |s|
  {
    if s != [] {
      var r := HyphenateSpaces(s);
      if IsSpace(s[0]) {
        var t := TrimStart(s[1..]);
        HyphenateChars(t);
        var h := HyphenateSpaces(t);
        assert r == "-" + h;
        forall i | 0 <= i < |r| ensures !IsSpace(r[i]) && (r[i] == '-' || r[i] in s) {
          if i > 0 {
            assert r[i] == h[i - 1];
            if r[i] != '-' {
              assert h[i - 1] in t;
              var j :| 0 <= j < |t| && t[j] == r[i];
              assert t[j] == s[1..][|s[1..]| - |t| + j];
            }
          }
        }
      } else {
        HyphenateChars(s[1..]);
        var h := HyphenateSpaces(s[1..]);
        assert r == [s[0]] + h;
        forall i | 0 <= i < |r| ensures !IsSpace(r[i]) && (r[i] == '-' || r[i] in s) {
          if i > 0 {
            assert r[i] == h[i - 1];
            if r[i] != '-' {
              assert h[i - 1] in s[1..];
            }
          }
        }
      }
    }
  }

  /** A prefix without white space is copied as it is. */
  lemma {:induction false} HyphenateWordPrefix(w: string, t: string)
    requires forall i :: 0 <= i < |w| ==> !IsSpace(w[i])
    ensures HyphenateSpaces(w + t) == w + HyphenateSpaces(t)
  {
    if w == [] {
      assert w + t == t;
    } else {
      assert (w + t)[0] == w[0] && !IsSpace(w[0]);
      assert (w + t)[1..] == w[1..] + t;
      HyphenateWordPrefix(w[1..], t);
    }
  }

  /** Leading white space is dropped entirely by TrimStart when a non-space follows. */
  lemma {:induction false} TrimStartSpaces(sp: string, t: string)
    requires forall i :: 0 <= i < |sp| ==> IsSpace(sp[i])
    requires t == [] || !IsSpace(t[0])
    ensures TrimStart(sp + t) == t
  {
    if sp == [] {
      assert sp + t == t;
    } else {
      assert (sp + t)[0] == sp[0];
      assert (sp + t)[1..] == sp[1..] + t;
      TrimStartSpaces(sp[1..], t);
    }
  }

  /** A run of white space in front of a non-space becomes one hyphen. */
  lemma SpaceRunHyphen(sp: string, t: string)
    requires sp != [] && forall i :: 0 <= i < |sp| ==> IsSpace(sp[i])
    requires t == [] || !IsSpace(t[0])
    ensures HyphenateSpaces(sp + t) == "-" + HyphenateSpaces(t)
  {
    assert (sp + t)[0] == sp[0];
    assert (sp + t)[1..] == sp[1..] + t;
    TrimStartSpaces(sp[1..], t);
  }

  /** Lower-casing and trimming leave alone a title without upper-case letters and without white space at its ends. */
  lemma LowerTrimFixed(s: string)
    requires forall i :: 0 <= i < |s| ==> !IsAsciiUpper(s[i])
    requires s != [] && !IsSpace(s[0]) && !IsSpace(s[|s| - 1])
    ensures Trim(ToLower(s)) == s
  {
    assert ToLower(s) == s;
    TrimStartSpaces([], s);
    assert [] + s == s;
  }

  // ---------------------------------------------------------------------------
  // createSlug

  /** A slug holds only lower-case letters, digits and hyphens. */
  lemma CreateSlugChars(title: string)
    ensures AllSlugChars(CreateSlug(title))
  {
    var s := StripDisallowed(Trim(ToLower(title)));
    var r := HyphenateSpaces(s);
    StripLeavesAllowed(Trim(ToLower(title)));
    HyphenateChars(s);
    forall i | 0 <= i < |r| ensures SlugChar(r[i]) {
      if r[i] != '-' {
        assert !IsSpace(r[i]) && (r[i] == '-' || r[i] in s);
        var j :| 0 <= j < |s| && s[j] == r[i];
        assert Allowed(s[j]);
      }
    }
  }

  /** A string of slug characters is left as it is by every stage of createSlug. */
  lemma SlugCharsFixed(s: string)
    requires AllSlugChars(s)
    ensures CreateSlug(s) == s
  {
    if s != [] {
      SlugCharsNoSpace(s);
      LowerTrimFixed(s);
      StripKeepsAllowed(s);
      HyphenateWordPrefix(s, []);
      assert s + [] == s;
    }
  }

  /** createSlug is idempotent. */
  lemma CreateSlugIdempotent(title: string)
    ensures CreateSlug(CreateSlug(title)) == CreateSlug(title)
  {
    CreateSlugChars(title);
    SlugCharsFixed(CreateSlug(title));
  }

  lemma SlugCharsNoSpace(w: string)
    requires AllSlugChars(w)
    ensures forall i :: 0 <= i < |w| ==> !IsSpace(w[i]) && Allowed(w[i]) && !IsAsciiUpper(w[i])
  {
  }

  /** The hyphenation of two words around a run of white space. */
  lemma HyphenateJoin(a: string, sp: string, b: string)
    requires AllSlugChars(a) && b != [] && AllSlugChars(b)
    requires sp != [] && forall i :: 0 <= i < |sp| ==> IsSpace(sp[i])
    ensures HyphenateSpaces(a + sp + b) == a + "-" + b
  {
    SlugCharsNoSpace(a);
    SlugCharsNoSpace(b);
    assert a + sp + b == a + (sp + b);
    HyphenateWordPrefix(a, sp + b);
    SpaceRunHyphen(sp, b);
    HyphenateWordPrefix(b, []);
    assert b + [] == b;
  }

  lemma JoinedCharsAllowed(a: string, sp: string, b: string)
    requires AllSlugChars(a) && AllSlugChars(b)
    requires forall i :: 0 <= i < |sp| ==> IsSpace(sp[i])
    ensures var s := a + sp + b; forall i :: 0 <= i < |s| ==> Allowed(s[i]) && !IsAsciiUpper(s[i])
  {
    var s := a + sp + b;
    SlugCharsNoSpace(a);
    SlugCharsNoSpace(b);
    forall i | 0 <= i < |s| ensures Allowed(s[i]) && !IsAsciiUpper(s[i]) {
      if i < |a| {
        assert s[i] == a[i];
      } else if i < |a| + |sp| {
        assert s[i] == sp[i - |a|];
      } else {
        assert s[i] == b[i - |a| - |sp|];
      }
    }
  }

  /** The first three stages leave two slug words around white space unchanged. */
  lemma PreparedJoin(a: string, sp: string, b: string)
    requires a != [] && b != [] && AllSlugChars(a) && AllSlugChars(b)
    requires forall i :: 0 <= i < |sp| ==> IsSpace(sp[i])
    ensures StripDisallowed(Trim(ToLower(a + sp + b))) == a + sp + b
  {
    var s := a + sp + b;
    JoinedCharsAllowed(a, sp, b);
    assert !IsSpace(s[0]) by {
      assert s[0] == a[0] && SlugChar(a[0]);
    }
    assert !IsSpace(s[|s| - 1]) by {
      assert s[|s| - 1] == b[|b| - 1] && SlugChar(b[|b| - 1]);
    }
    LowerTrimFixed(s);
    StripKeepsAllowed(s);
  }

  /** Two slug words separated by any run of white space are joined by a single hyphen. */
  lemma SpaceRunBecomesHyphen(a: string, sp: string, b: string)
    requires a != [] && b != [] && AllSlugChars(a) && AllSlugChars(b)
    requires sp != [] && forall i :: 0 <= i < |sp| ==> IsSpace(sp[i])
    ensures CreateSlug(a + sp + b) == a + "-" + b
  {
    PreparedJoin(a, sp, b);
    HyphenateJoin(a, sp, b);
  }

  /** The hyphenation of a word followed by one space. */
  lemma HyphenateTrailingSpace(a: string)
    requires AllSlugChars(a)
    ensures HyphenateSpaces(a + " ") == a + "-"
  {
    SlugCharsNoSpace(a);
    HyphenateWordPrefix(a, " ");
    SpaceRunHyphen(" ", []);
    assert " " + [] == " ";
  }

  /** The strip of a word, one space and one dropped character. */
  lemma StripTrailing(a: string, c: char)
    requires AllSlugChars(a) && !Allowed(c)
    ensures StripDisallowed(a + [' ', c]) == a + " "
  {
    SlugCharsNoSpace(a);
    StripAppend(a, [' ', c]);
    StripKeepsAllowed(a);
    assert [' ', c][1..] == [c];
    assert StripDisallowed([c]) == [] by {
      assert [c][1..] == [];
    }
  }

  lemma SlugCharFacts(c: char)
    requires SlugChar(c)
    ensures !IsSpace(c) && Allowed(c) && !IsAsciiUpper(c)
  {
  }

  /** Lower-casing and trimming leave a word, a space and a dropped character unchanged. */
  lemma PreparedTrailing(a: string, c: char)
    requires a != [] && AllSlugChars(a)
    requires !Allowed(c) && !IsAsciiUpper(c)
    ensures Trim(ToLower(a + [' ', c])) == a + [' ', c]
  {
    var s := a + [' ', c];
    forall i | 0 <= i < |s| ensures !IsAsciiUpper(s[i]) {
      if i < |a| {
        assert s[i] == a[i];
        SlugCharFacts(a[i]);
      }
    }
    assert s[0] == a[0];
    SlugCharFacts(a[0]);
    assert s[|s| - 1] == c;
    LowerTrimFixed(s);
  }

  /**
   * When a character dropped by the strip ends the title, the white space
   * before it is left at the end and the slug ends in a hyphen.
   */
  lemma TrailingHyphen(a: string, c: char)
    requires a != [] && AllSlugChars(a)
    requires !Allowed(c) && !IsAsciiUpper(c)
    ensures CreateSlug(a + [' ', c]) == a + "-"
  {
    PreparedTrailing(a, c);
    StripTrailing(a, c);
    HyphenateTrailingSpace(a);
  }
}
