/**
 * The category record and its schema rules (Backend/model/categoryModel.js):
 * the slug derived from the name by the pre-save hook, the trimmed and
 * length-checked name, and the unique indexes on name and slug.
 */
module CategoryModel {
  import opened Js
  import opened Text

  const PlaceholderIcon := "https://via.placeholder.com/80x80?text=CAT"
  const NameMinLength := 2
  const NameMaxLength := 50
  const DescriptionMaxLength := 200

  datatype Category = Category(
    id: string,
    name: string,
    slug: string,
    description: Option<string>,
    icon: string,
    isActive: bool)

  // ---------------------------------------------------------------------------
  // Slug derivation: name.toLowerCase().replace(/[^a-z0-9]+/g, "-").replace(/(^-|-$)/g, "")

  /** Drops the leading characters outside [a-z0-9]. */
  function DropGap(s: string): (r: string)
    ensures |r| <= |s| && r == s[|s| - |r|..]
    ensures r == [] || IsLowerAlnum(r[0])
    ensures forall i :: 0 <= i < |s| - |r| ==> !IsLowerAlnum(s[i])
  {
    if s != [] && !IsLowerAlnum(s[0]) then
      var r := DropGap(s[1..]);
      assert forall i :: 1 <= i < |s| - |r| ==> !IsLowerAlnum(s[i]) by {
        forall i | 1 <= i < |s| - |r| ensures !IsLowerAlnum(s[i]) {
          assert s[i] == s[1..][i - 1];
        }
      }
      r
    else s
  }

  /** `.replace(/[^a-z0-9]+/g, "-")`: every maximal run of characters outside [a-z0-9] becomes one `-`. */
  function CollapseGaps(s: string): string
    decreases |s|
  {
    if s == [] then []
    else if IsLowerAlnum(s[0]) then [s[0]] + CollapseGaps(s[1..])
    else "-" + CollapseGaps(DropGap(s[1..]))
  }

  /** `.replace(/(^-|-$)/g, "")`: removes one `-` at the start and one at the end. */
  function StripEdgeHyphens(s: string): string {
    var a := if s != [] && s[0] == '-' then s[1..] else s;
    if a != [] && a[|a| - 1] == '-' then a[..|a| - 1] else a
  }

  /** The slug the pre-save hook assigns. */
  function Slugify(name: string): string {
    StripEdgeHyphens(CollapseGaps(ToLower(name)))
  }

  // ---------------------------------------------------------------------------
  // An independent description of the slug: the words of the name joined by `-`.

  /** The longest prefix made of [a-z0-9]. */
  function TakeWord(s: string): (w: string)
    ensures |w| <= |s| && w == s[..|w|]
    ensures forall i :: 0 <= i < |w| ==> IsLowerAlnum(w[i])
    ensures |w| < |s| ==> !IsLowerAlnum(s[|w|])
  {
    if s != [] && IsLowerAlnum(s[0]) then [s[0]] + TakeWord(s[1..]) else []
  }

  /** The maximal runs of [a-z0-9] in `s`, in order. */
  function Words(s: string): (ws: seq<string>)
    decreases |s|
  {
    if s == [] then []
    else if !IsLowerAlnum(s[0]) then Words(s[1..])
    else
      var w := TakeWord(s);
      [w] + Words(s[|w|..])
  }

  function Join(ws: seq<string>): string {
    if ws == [] then ""
    else if |ws| == 1 then ws[0]
    else ws[0] + "-" + Join(ws[1..])
  }

  predicate IsWord(w: string) {
    w != [] && forall i :: 0 <= i < |w| ==> IsLowerAlnum(w[i])
  }

  predicate AllWords(ws: seq<string>) {
    forall k :: 0 <= k < |ws| ==> IsWord(ws[k])
  }

  /** What a URL slug looks like: only [a-z0-9-], no `-` at either end, no `--`. */
  predicate IsWellFormedSlug(s: string) {
    && (forall i :: 0 <= i < |s| ==> IsLowerAlnum(s[i]) || s[i] == '-')
    && (s != [] ==> s[0] != '-' && s[|s| - 1] != '-')
    && (forall i :: 0 <= i < |s| - 1 ==> s[i] == '-' ==> s[i + 1] != '-')
  }

  lemma {:induction false} WordsAreWords(s: string)
    ensures AllWords(Words(s))
    decreases |s|
  {
    if s == [] {
    } else if !IsLowerAlnum(s[0]) {
      WordsAreWords(s[1..]);
    } else {
      var w := TakeWord(s);
      WordsAreWords(s[|w|..]);
    }
  }

  lemma {:induction false} JoinShape(ws: seq<string>)
    requires AllWords(ws)
    ensures ws == [] <==> Join(ws) == []
    ensures ws != [] ==> Join(ws)[0] == ws[0][0]
    ensures ws != [] ==> Join(ws)[|Join(ws)| - 1] == ws[|ws| - 1][|ws[|ws| - 1]| - 1]
    ensures IsWellFormedSlug(Join(ws))
  {
    if |ws| > 1 {
      JoinShape(ws[1..]);
      var j := Join(ws[1..]);
      var r := ws[0] + "-" + j;
      assert Join(ws) == r;
      assert forall i :: 0 <= i < |r| ==> IsLowerAlnum(r[i]) || r[i] == '-' by {
        forall i | 0 <= i < |r| ensures IsLowerAlnum(r[i]) || r[i] == '-' {
          if i > |ws[0]| { assert r[i] == j[i - |ws[0]| - 1]; }
        }
      }
      forall i | 0 <= i < |r| - 1 ensures r[i] == '-' ==> r[i + 1] != '-' {
        if i < |ws[0]| {
          assert r[i] == ws[0][i];
        } else if i == |ws[0]| {
          assert r[i + 1] == j[0];
        } else {
          assert r[i] == j[i - |ws[0]| - 1] && r[i + 1] == j[i - |ws[0]|];
        }
      }
    }
  }

  /** Collapsing a word followed by more text keeps the word. */
  lemma {:induction false} CollapseWordPrefix(w: string, rest: string)
    requires forall i :: 0 <= i < |w| ==> IsLowerAlnum(w[i])
    ensures CollapseGaps(w + rest) == w + CollapseGaps(rest)
    decreases |w|
  {
    if w != [] {
      var s := w + rest;
      assert s[0] == w[0] && IsLowerAlnum(s[0]);
      assert s[1..] == w[1..] + rest;
      assert CollapseGaps(s) == [w[0]] + CollapseGaps(s[1..]);
      CollapseWordPrefix(w[1..], rest);
      calc {
        CollapseGaps(s);
        [w[0]] + (w[1..] + CollapseGaps(rest));
        ([w[0]] + w[1..]) + CollapseGaps(rest);
        { assert [w[0]] + w[1..] == w; }
        w + CollapseGaps(rest);
      }
    } else {
      assert w + rest == rest;
    }
  }

  lemma {:induction false} WordsSkipGap(s: string)
    ensures Words(s) == Words(DropGap(s))
    decreases |s|
  {
    if s != [] && !IsLowerAlnum(s[0]) {
      WordsSkipGap(s[1..]);
    }
  }

  predicate EndsInGap(s: string) {
    s != [] && !IsLowerAlnum(s[|s| - 1])
  }

  /** At a gap, collapsing emits one `-` and resumes at the next word. */
  lemma CollapseAtGap(s: string)
    requires s != [] && !IsLowerAlnum(s[0])
    ensures CollapseGaps(s) == "-" + CollapseGaps(DropGap(s))
  {
    assert DropGap(s) == DropGap(s[1..]);
  }

  lemma WordsAtWord(s: string)
    requires s != [] && IsLowerAlnum(s[0])
    ensures Words(s) == [TakeWord(s)] + Words(s[|TakeWord(s)|..])
  {
  }

  function GapMark(s: string): string {
    if EndsInGap(s) then "-" else ""
  }

  /** From the start of a word, collapsing gives the joined words plus one `-` for a trailing gap. */
  lemma {:induction false} CollapseFromWord(s: string)
    requires s == [] || IsLowerAlnum(s[0])
    ensures CollapseGaps(s) == Join(Words(s)) + GapMark(s)
    ensures s != [] ==> Words(s) != []
    decreases |s|
  {
    if s != [] {
      var w := TakeWord(s);
      var rest := s[|w|..];
      assert IsWord(w);
      assert CollapseGaps(s) == w + CollapseGaps(rest) by {
        assert s == w + rest;
        CollapseWordPrefix(w, rest);
      }
      WordsAtWord(s);
      if rest == [] {
        CollapseLastWord(s, w);
      } else {
        var r2 := DropGap(rest);
        if r2 != [] {
          CollapseFromWord(r2);
        }
        CollapseWordThenRest(s, w, rest, r2);
      }
    }
  }

  /** The step of CollapseFromWord after the first word, given the claim for the text after the gap. */
  lemma CollapseWordThenRest(s: string, w: string, rest: string, r2: string)
    requires s == w + rest && rest != [] && !IsLowerAlnum(rest[0]) && r2 == DropGap(rest)
    requires CollapseGaps(s) == w + CollapseGaps(rest)
    requires Words(s) == [w] + Words(rest)
    requires r2 != [] ==> CollapseGaps(r2) == Join(Words(r2)) + GapMark(r2) && Words(r2) != []
    ensures CollapseGaps(s) == Join(Words(s)) + GapMark(s)
  {
    CollapseAtGap(rest);
    WordsSkipGap(rest);
    if r2 == [] {
      assert EndsInGap(s) by {
        assert !IsLowerAlnum(rest[|rest| - 1]);
        assert s[|s| - 1] == rest[|rest| - 1];
      }
      CollapseWordThenGap(s, w, rest);
    } else {
      assert EndsInGap(s) == EndsInGap(r2) by {
        assert s[|s| - 1] == r2[|r2| - 1];
      }
      CollapseWordGapWord(s, w, rest, r2);
    }
  }

  lemma CollapseLastWord(s: string, w: string)
    requires s != [] && w == s && IsWord(w)
    requires CollapseGaps(s) == w + CollapseGaps([])
    requires Words(s) == [w] + Words([])
    ensures CollapseGaps(s) == Join(Words(s)) + GapMark(s)
  {
    assert s[|s| - 1] == w[|w| - 1];
    assert !EndsInGap(s);
  }

  lemma CollapseWordThenGap(s: string, w: string, rest: string)
    requires EndsInGap(s)
    requires CollapseGaps(s) == w + CollapseGaps(rest)
    requires CollapseGaps(rest) == "-" + CollapseGaps([])
    requires Words(s) == [w] + Words(rest)
    requires Words(rest) == Words([])
    ensures CollapseGaps(s) == Join(Words(s)) + GapMark(s)
  {
    assert Words(s) == [w];
  }

  lemma CollapseWordGapWord(s: string, w: string, rest: string, r2: string)
    requires EndsInGap(s) == EndsInGap(r2)
    requires CollapseGaps(s) == w + CollapseGaps(rest)
    requires CollapseGaps(rest) == "-" + CollapseGaps(r2)
    requires Words(s) == [w] + Words(rest)
    requires Words(rest) == Words(r2)
    requires Words(r2) != []
    requires CollapseGaps(r2) == Join(Words(r2)) + GapMark(r2)
    ensures CollapseGaps(s) == Join(Words(s)) + GapMark(s)
  {
    var ws2 := Words(r2);
    JoinCons(w, ws2);
    assert Words(s) == [w] + ws2;
    var g := GapMark(r2);
    assert GapMark(s) == g;
    assert CollapseGaps(s) == w + ("-" + (Join(ws2) + g));
    ConcatAssoc(w, "-", Join(ws2), g);
  }

  lemma JoinCons(w: string, ws: seq<string>)
    requires ws != []
    ensures Join([w] + ws) == w + "-" + Join(ws)
  {
    assert ([w] + ws)[0] == w;
    assert ([w] + ws)[1..] == ws;
  }

  lemma ConcatAssoc(a: string, b: string, c: string, d: string)
    ensures a + (b + (c + d)) == (a + b + c) + d
  {
  }

  /** The slug is the lower-cased name's [a-z0-9] words joined by single hyphens. */
  lemma SlugifyIsJoinedWords(name: string)
    ensures Slugify(name) == Join(Words(ToLower(name)))
  {
    var s := ToLower(name);
    if s == [] {
    } else if IsLowerAlnum(s[0]) {
      StripCollapseAtWord(s);
    } else {
      StripCollapseAtGap(s);
    }
  }

  lemma StripCollapseAtWord(s: string)
    requires s != [] && IsLowerAlnum(s[0])
    ensures StripEdgeHyphens(CollapseGaps(s)) == Join(Words(s))
  {
    WordsAreWords(s);
    CollapseFromWord(s);
    var j := Join(Words(s));
    JoinShape(Words(s));
    StripEdgesOfJoin(j, "", GapMark(s));
    assert "" + (j + GapMark(s)) == j + GapMark(s);
  }

  lemma StripCollapseAtGap(s: string)
    requires s != [] && !IsLowerAlnum(s[0])
    ensures StripEdgeHyphens(CollapseGaps(s)) == Join(Words(s))
  {
    var r := DropGap(s);
    CollapseAtGap(s);
    WordsSkipGap(s);
    if r != [] {
      StripLeadingGap(r);
    } else {
      assert Words(r) == [];
      assert CollapseGaps(r) == [];
      assert CollapseGaps(s) == "-";
    }
  }

  /** A leading gap before a word: its `-` is stripped along with a trailing one. */
  lemma StripLeadingGap(r: string)
    requires r != [] && IsLowerAlnum(r[0])
    ensures StripEdgeHyphens("-" + CollapseGaps(r)) == Join(Words(r))
  {
    var ws := Words(r);
    var j := Join(ws);
    var g := GapMark(r);
    CollapseFromWord(r);
    WordsAreWords(r);
    JoinShape(ws);
    assert g == "" || g == "-";
    StripEdgesOfJoin(j, "-", g);
  }

  lemma StripEdgesOfJoin(j: string, lead: string, trail: string)
    requires j != [] && j[0] != '-' && j[|j| - 1] != '-'
    requires lead == "" || lead == "-"
    requires trail == "" || trail == "-"
    ensures StripEdgeHyphens(lead + (j + trail)) == j
  {
    var t := lead + (j + trail);
    var a := if t != [] && t[0] == '-' then t[1..] else t;
    assert a == j + trail by {
      if lead == "-" {
        assert t[0] == '-' && t[1..] == j + trail;
      } else {
        assert t == j + trail && t[0] == j[0];
      }
    }
    if trail == "-" {
      assert a[..|a| - 1] == j;
    } else {
      assert a == j;
    }
  }

  /** The slug only holds [a-z0-9-], never starts or ends with `-` and never holds `--`. */
  lemma SlugIsWellFormed(name: string)
    ensures IsWellFormedSlug(Slugify(name))
  {
    SlugifyIsJoinedWords(name);
    WordsAreWords(ToLower(name));
    JoinShape(Words(ToLower(name)));
  }

  lemma {:induction false} WordsOfJoin(ws: seq<string>)
    requires AllWords(ws)
    ensures Words(Join(ws)) == ws
  {
    if ws == [] {
    } else if |ws| == 1 {
      var w := ws[0];
      assert w + [] == w;
      assert TakeWord(w + []) == w by { TakeWordOfWord(w, []); }
      assert w[|w|..] == [];
    } else {
      var w := ws[0];
      var rest := "-" + Join(ws[1..]);
      assert Join(ws) == w + rest;
      TakeWordOfWord(w, rest);
      assert (w + rest)[|w|..] == rest;
      assert rest[1..] == Join(ws[1..]);
      WordsOfJoin(ws[1..]);
    }
  }

  lemma {:induction false} TakeWordOfWord(w: string, rest: string)
    requires IsWord(w)
    requires rest == [] || !IsLowerAlnum(rest[0])
    ensures TakeWord(w + rest) == w
    decreases |w|
  {
    assert (w + rest)[1..] == w[1..] + rest;
    if |w| > 1 {
      TakeWordOfWord(w[1..], rest);
    } else {
      assert w[1..] + rest == rest;
    }
  }

  /** Deriving a slug from an existing slug gives it back unchanged. */
  lemma SlugifyIdempotent(name: string)
    ensures Slugify(Slugify(name)) == Slugify(name)
  {
    var ws := Words(ToLower(name));
    SlugifyIsJoinedWords(name);
    WordsAreWords(ToLower(name));
    var s := Join(ws);
    JoinShape(ws);
    forall i | 0 <= i < |s| ensures ToLower(s)[i] == s[i] {
      LowerCharFacts(s[i]);
    }
    assert ToLower(s) == s;
    SlugifyIsJoinedWords(s);
    WordsOfJoin(ws);
  }

  /** Two words separated by one space, in any letter case, give the lower-cased words joined by `-`. */
  lemma SlugOfTwoWords(a: string, b: string)
    requires IsWord(ToLower(a)) && IsWord(ToLower(b))
    ensures Slugify(a + " " + b) == ToLower(a) + "-" + ToLower(b)
  {
    var la, lb := ToLower(a), ToLower(b);
    LowerAroundSpace(a, b);
    WordsAroundSpace(la, lb);
    assert [la, lb][1..] == [lb];
    assert Join([la, lb]) == la + "-" + lb;
    SlugifyIsJoinedWords(a + " " + b);
  }

  lemma LowerAroundSpace(a: string, b: string)
    ensures ToLower(a + " " + b) == ToLower(a) + (" " + ToLower(b))
  {
    assert a + " " + b == a + (" " + b);
    LowerAppend(a, " " + b);
    LowerAppend(" ", b);
    assert ToLower(" ")[0] == LowerChar(' ') == ' ';
  }

  lemma {:induction false} LowerAppend(x: string, y: string)
    ensures ToLower(x + y) == ToLower(x) + ToLower(y)
  {
    if x == [] {
      assert x + y == y;
    } else {
      assert (x + y)[1..] == x[1..] + y;
      LowerAppend(x[1..], y);
    }
  }

  lemma WordsAroundSpace(a: string, b: string)
    requires IsWord(a) && IsWord(b)
    ensures Words(a + (" " + b)) == [a, b]
  {
    var s := a + (" " + b);
    TakeWordOfWord(a, " " + b);
    assert s[|a|..] == " " + b;
    assert Words(s) == [a] + Words(" " + b);
    assert (" " + b)[1..] == b;
    assert Words(" " + b) == Words(b);
    assert Join([b]) == b;
    WordsOfJoin([b]);
  }

  lemma SlugExampleNoAlphanumerics()
    ensures Slugify("!!!") == ""
  {
    assert ToLower("!!!") == "!!!";
    assert DropGap("!!!") == "";
    CollapseAtGap("!!!");
  }

  // ---------------------------------------------------------------------------
  // Schema rules

  /** The pre("save") hook: the slug is recomputed only when the name was modified. */
  function PreSave(c: Category, nameModified: bool): (r: Category)
    ensures r.id == c.id && r.name == c.name && r.description == c.description
    ensures r.icon == c.icon && r.isActive == c.isActive
    ensures nameModified ==> r.slug == Slugify(c.name) && IsWellFormedSlug(r.slug)
    ensures !nameModified ==> r == c
  {
    if nameModified then
      SlugIsWellFormed(c.name);
      c.(slug := Slugify(c.name))
    else c
  }

  /** The name's validators after the `trim` setter: required, 2 to 50 characters. */
  predicate NameValid(trimmedName: string) {
    trimmedName != "" && NameMinLength <= |trimmedName| <= NameMaxLength
  }

  predicate DescriptionValid(description: Option<string>) {
    description.None? || |Trim(description.value)| <= DescriptionMaxLength
  }

  /** The unique indexes on `name` and `slug`, over every stored category, active or not. */
  predicate UniqueKeys(cs: seq<Category>) {
    forall i, j :: 0 <= i < j < |cs| ==> cs[i].name != cs[j].name && cs[i].slug != cs[j].slug
  }

  /** Two distinct names with the same slug cannot both be stored. */
  lemma SameSlugNotStored(cs: seq<Category>, i: int, j: int)
    requires UniqueKeys(cs)
    requires 0 <= i < |cs| && 0 <= j < |cs|
    requires cs[i].slug == cs[j].slug
    ensures i == j
  {
  }
}
