/**
 * The URL-slug rule written twice in the blog editor (the generator effect
 * and the slug field's `onChange`):
 * `s.toLowerCase().replace(/[^a-z0-9]+/g, '-').replace(/^-|-$/g, '')`.
 */
module Slug {
  import opened Strings
  import opened Seqs

  /** The characters `[a-z0-9]` that survive unchanged. */
  predicate IsSlugChar(c: char) {
    'a' <= c <= 'z' || '0' <= c <= '9'
  }

  /** Only `[a-z0-9-]`, and never two hyphens in a row. */
  predicate SlugShape(h: string) {
    && (forall k :: 0 <= k < |h| ==> IsSlugChar(h[k]) || h[k] == '-')
    && (forall k :: 0 <= k < |h| - 1 ==> !(h[k] == '-' && h[k + 1] == '-'))
  }

  /** A finished slug: the shape above with no hyphen at either end. */
  predicate IsSlug(s: string) {
    SlugShape(s) && (s == [] || (s[0] != '-' && s[|s| - 1] != '-'))
  }

  /** Drops the maximal prefix of characters outside `[a-z0-9]`. */
  function SkipRun(s: string): (r: string)
    ensures |r| <= |s| && r == s[|s| - |r|..]
    ensures r == [] || IsSlugChar(r[0])
    ensures forall k :: 0 <= k < |s| - |r| ==> !IsSlugChar(s[k])
  {
    if s == [] || IsSlugChar(s[0]) then s else SkipRun(s[1..])
  }

  /** `.replace(/[^a-z0-9]+/g, '-')`: each maximal run of other characters
      becomes one hyphen. */
  function Hyphenate(s: string): (h: string)
    ensures h == [] <==> s == []
    ensures h != [] ==> (IsSlugChar(h[0]) <==> IsSlugChar(s[0]))
    ensures SlugShape(h)
    decreases |s|
  {
    if s == [] then []
    else if IsSlugChar(s[0]) then [s[0]] + Hyphenate(s[1..])
    else "-" + Hyphenate(SkipRun(s[1..]))
  }

  /** `.replace(/^-|-$/g, '')`: one hyphen off the front, one off the back. */
  function TrimHyphens(h: string): string {
    var a := if |h| > 0 && h[0] == '-' then h[1..] else h;
    if |a| > 0 && a[|a| - 1] == '-' then a[..|a| - 1] else a
  }

  /** The slug of a title or of typed slug text. */
  function Slugify(text: string): (r: string)
    ensures IsSlug(r)
  {
    var h := Hyphenate(LowerStr(text));
    TrimHyphensSlug(h);
    TrimHyphens(h)
  }

  /** A slice of a string in slug shape is in slug shape. */
  lemma ShapeSlice(h: string, i: nat, j: nat)
    requires SlugShape(h) && i <= j <= |h|
    ensures SlugShape(h[i..j])
  {
    var m := h[i..j];
    assert forall k :: 0 <= k < |m| ==> m[k] == h[i + k];
  }

  /** Trimming the end hyphens of a string in slug shape leaves a slug: no
      two hyphens stand together, so at most one sits at each end. */
  lemma TrimHyphensSlug(h: string)
    requires SlugShape(h)
    ensures IsSlug(TrimHyphens(h))
  {
    var a := if |h| > 0 && h[0] == '-' then h[1..] else h;
    ShapeSlice(h, if |h| > 0 && h[0] == '-' then 1 else 0, |h|);
    assert a == [] || a[0] != '-';
    if |a| > 0 && a[|a| - 1] == '-' {
      var b := a[..|a| - 1];
      ShapeSlice(a, 0, |a| - 1);
      assert b != [] ==> b[0] == a[0] && b[|b| - 1] == a[|a| - 2];
    }
  }

  /** The letters and digits of `s`, in their order. */
  function Alnum(s: string): string {
    Filter(s, IsSlugChar)
  }

  /** A run of other characters holds no letter or digit. */
  lemma {:induction false} SkipRunKeepsAlnum(s: string)
    ensures Alnum(SkipRun(s)) == Alnum(s)
    decreases |s|
  {
    if s != [] && !IsSlugChar(s[0]) {
      SkipRunKeepsAlnum(s[1..]);
    }
  }

  /** The run replacement keeps every letter and digit, in order: it only
      turns other characters into hyphens. */
  lemma {:induction false} HyphenateKeepsAlnum(s: string)
    ensures Alnum(Hyphenate(s)) == Alnum(s)
    decreases |s|
  {
    if s != [] {
      if IsSlugChar(s[0]) {
        var h := Hyphenate(s[1..]);
        HyphenateKeepsAlnum(s[1..]);
        assert ([s[0]] + h)[1..] == h;
      } else {
        var t := SkipRun(s[1..]);
        var h := Hyphenate(t);
        HyphenateKeepsAlnum(t);
        SkipRunKeepsAlnum(s[1..]);
        assert ("-" + h)[1..] == h;
      }
    }
  }

  /** Dropping a hyphen at either end keeps every letter and digit. */
  lemma TrimHyphensKeepsAlnum(h: string)
    ensures Alnum(TrimHyphens(h)) == Alnum(h)
  {
    var a := if |h| > 0 && h[0] == '-' then h[1..] else h;
    if |a| > 0 && a[|a| - 1] == '-' {
      assert a == a[..|a| - 1] + ['-'];
      FilterAppend(a[..|a| - 1], ['-'], IsSlugChar);
      assert Filter(['-'], IsSlugChar) == Filter(['-'][1..], IsSlugChar);
    }
  }

  /** The slug holds exactly the letters and digits of the lowered title, in
      their order: only the characters outside `[a-z0-9]` are replaced. */
  lemma SlugifyKeepsAlnum(text: string)
    ensures Alnum(Slugify(text)) == Alnum(LowerStr(text))
  {
    HyphenateKeepsAlnum(LowerStr(text));
    TrimHyphensKeepsAlnum(Hyphenate(LowerStr(text)));
  }

  /** No character of `s` is a letter or digit: `s` lies inside one run. */
  predicate NoSlugChars(s: string) {
    forall k :: 0 <= k < |s| ==> !IsSlugChar(s[k])
  }

  /** A run of other characters in front is skipped whole. */
  lemma {:induction false} SkipRunWhole(x: string, b: string)
    requires NoSlugChars(x)
    ensures SkipRun(x + b) == SkipRun(b)
    decreases |x|
  {
    if x != [] {
      assert (x + b)[1..] == x[1..] + b;
      SkipRunWhole(x[1..], b);
    } else {
      assert x + b == b;
    }
  }

  /** Once a letter or digit has been reached, what follows is kept as is. */
  lemma {:induction false} SkipRunAppend(x: string, b: string)
    requires !NoSlugChars(x)
    ensures SkipRun(x + b) == SkipRun(x) + b
    decreases |x|
  {
    if !IsSlugChar(x[0]) {
      assert (x + b)[1..] == x[1..] + b;
      SkipRunAppend(x[1..], b);
    }
  }

  /** A non-empty run of other characters becomes a single hyphen. */
  lemma RunHyphen(sep: string)
    requires sep != [] && NoSlugChars(sep)
    ensures Hyphenate(sep) == "-"
  {
    SkipRunWhole(sep[1..], []);
    assert sep[1..] + [] == sep[1..];
  }

  /** The run replacement works piece by piece wherever the two pieces do
      not split a run of other characters: at the seam one side holds a
      letter or digit. */
  lemma {:induction false} HyphenateAppend(a: string, b: string)
    requires a == [] || b == [] || IsSlugChar(a[|a| - 1]) || IsSlugChar(b[0])
    ensures Hyphenate(a + b) == Hyphenate(a) + Hyphenate(b)
    decreases |a|, 1
  {
    if a == [] {
      assert a + b == b;
    } else if IsSlugChar(a[0]) {
      AppendAfterChar(a, b);
    } else if NoSlugChars(a[1..]) {
      AppendAfterRun(a, b);
    } else {
      AppendAfterSkip(a, b);
    }
  }

  /** `HyphenateAppend` when `a` starts with a letter or digit. */
  lemma {:induction false} AppendAfterChar(a: string, b: string)
    requires a != [] && IsSlugChar(a[0])
    requires b == [] || IsSlugChar(a[|a| - 1]) || IsSlugChar(b[0])
    ensures Hyphenate(a + b) == Hyphenate(a) + Hyphenate(b)
    decreases |a|, 0
  {
    var x := a[1..];
    assert (a + b)[1..] == x + b;
    if x != [] {
      assert a[|a| - 1] == x[|x| - 1];
    }
    HyphenateAppend(x, b);
    Assoc([a[0]], Hyphenate(x), Hyphenate(b));
  }

  /** `HyphenateAppend` when `a` is one run of other characters. */
  lemma AppendAfterRun(a: string, b: string)
    requires a != [] && NoSlugChars(a)
    requires b == [] || IsSlugChar(b[0])
    ensures Hyphenate(a + b) == Hyphenate(a) + Hyphenate(b)
  {
    var x := a[1..];
    assert (a + b)[1..] == x + b;
    SkipRunWhole(x, b);
    RunHyphen(a);
    assert SkipRun(b) == b;
    assert Hyphenate(a + b) == "-" + Hyphenate(SkipRun(x + b));
  }

  /** `HyphenateAppend` when a run of other characters opens `a` and a letter
      or digit follows it inside `a`. */
  lemma {:induction false} AppendAfterSkip(a: string, b: string)
    requires a != [] && !IsSlugChar(a[0]) && !NoSlugChars(a[1..])
    requires b == [] || IsSlugChar(a[|a| - 1]) || IsSlugChar(b[0])
    ensures Hyphenate(a + b) == Hyphenate(a) + Hyphenate(b)
    decreases |a|, 0
  {
    var x := a[1..];
    assert (a + b)[1..] == x + b;
    SkipRunAppend(x, b);
    var y := SkipRun(x);
    assert y != [] && y[|y| - 1] == a[|a| - 1];
    HyphenateAppend(y, b);
    Assoc("-", Hyphenate(y), Hyphenate(b));
  }

  /** After a word of letters and digits closed by a run of other characters,
      the run is one hyphen and the rest is replaced on its own. */
  lemma HyphenateSeparator(w: string, sep: string, rest: string)
    requires forall k :: 0 <= k < |w| ==> IsSlugChar(w[k])
    requires sep != [] && NoSlugChars(sep)
    requires rest == [] || IsSlugChar(rest[0])
    ensures Hyphenate(w + sep + rest) == w + "-" + Hyphenate(rest)
  {
    var tail := sep + rest;
    HyphenateAppend(sep, rest);
    RunHyphen(sep);
    Assoc(w, sep, rest);
    HyphenateAppend(w, tail);
    HyphenateFixed(w);
    Assoc(w, "-", Hyphenate(rest));
  }

  /** A string that ends in a letter or digit is replaced into one that ends
      in that same character. */
  lemma HyphenateLast(s: string)
    requires s != [] && IsSlugChar(s[|s| - 1])
    ensures Hyphenate(s) != [] && Hyphenate(s)[|Hyphenate(s)| - 1] == s[|s| - 1]
  {
    var c := s[|s| - 1];
    assert s == s[..|s| - 1] + [c];
    HyphenateAppend(s[..|s| - 1], [c]);
    assert Hyphenate([c]) == [c] + Hyphenate([c][1..]);
  }

  /** Lowering works character by character. */
  lemma LowerAppend(a: string, b: string)
    ensures LowerStr(a + b) == LowerStr(a) + LowerStr(b)
  {
    assert forall k :: 0 <= k < |a + b| ==> LowerStr(a + b)[k] == (LowerStr(a) + LowerStr(b))[k];
  }

  /** A word whose lowered characters are letters and digits slugs to its
      lower-case form. */
  lemma SlugifyWord(w: string)
    requires forall k :: 0 <= k < |w| ==> IsSlugChar(Lower(w[k]))
    ensures Slugify(w) == LowerStr(w)
  {
    var l := LowerStr(w);
    assert IsSlug(l);
    HyphenateFixed(l);
  }

  /** End trimming leaves a front that does not start with a hyphen alone. */
  lemma TrimHyphensPrefix(p: string, h: string)
    requires p != [] && p[0] != '-' && h != [] && h[0] != '-'
    ensures TrimHyphens(p + h) == p + TrimHyphens(h)
  {
    var ph := p + h;
    assert ph[0] == p[0] && ph[|ph| - 1] == h[|h| - 1];
    if h[|h| - 1] == '-' {
      assert ph[..|ph| - 1] == p + h[..|h| - 1];
    }
  }

  /** A hyphen put in front is trimmed away again. */
  lemma TrimHyphensLead(h: string)
    requires h == [] || h[0] != '-'
    ensures TrimHyphens("-" + h) == TrimHyphens(h)
  {
    assert ("-" + h)[1..] == h;
  }

  /** A hyphen put at the end is trimmed away again. */
  lemma TrimHyphensTrail(h: string)
    requires h == [] || h[|h| - 1] != '-'
    ensures TrimHyphens(h + "-") == TrimHyphens(h)
  {
    var h1 := h + "-";
    if h == [] {
      assert h1 == "-";
    } else {
      var a := if h[0] == '-' then h[1..] else h;
      assert a != [] && a[|a| - 1] == h[|h| - 1];
      assert (if h1[0] == '-' then h1[1..] else h1) == a + "-";
      assert (a + "-")[..|a|] == a;
    }
  }

  /** Between two words, each maximal run of characters outside `[a-z0-9]`
      becomes exactly one hyphen, and the rest of the title is slugged on its
      own. */
  lemma SlugifySeparator(w: string, sep: string, rest: string)
    requires w != [] && forall k :: 0 <= k < |w| ==> IsSlugChar(Lower(w[k]))
    requires sep != [] && forall k :: 0 <= k < |sep| ==> !IsSlugChar(Lower(sep[k]))
    requires rest != [] && IsSlugChar(Lower(rest[0]))
    ensures Slugify(w + sep + rest) == LowerStr(w) + "-" + Slugify(rest)
  {
    var lw, ls, lr := LowerStr(w), LowerStr(sep), LowerStr(rest);
    LowerAppend(w, sep);
    LowerAppend(w + sep, rest);
    HyphenateSeparator(lw, ls, lr);
    TrimHyphensPrefix(lw + "-", Hyphenate(lr));
  }

  /** A run of other characters in front of the first letter or digit leaves
      no trace in the slug. */
  lemma SlugifyLeadingRun(sep: string, rest: string)
    requires forall k :: 0 <= k < |sep| ==> !IsSlugChar(Lower(sep[k]))
    requires rest == [] || IsSlugChar(Lower(rest[0]))
    ensures Slugify(sep + rest) == Slugify(rest)
  {
    if sep == [] {
      assert sep + rest == rest;
    } else {
      var ls, lr := LowerStr(sep), LowerStr(rest);
      LowerAppend(sep, rest);
      HyphenateAppend(ls, lr);
      RunHyphen(ls);
      TrimHyphensLead(Hyphenate(lr));
    }
  }

  /** A run of other characters after the last letter or digit leaves no
      trace in the slug. */
  lemma SlugifyTrailingRun(rest: string, sep: string)
    requires forall k :: 0 <= k < |sep| ==> !IsSlugChar(Lower(sep[k]))
    requires rest == [] || IsSlugChar(Lower(rest[|rest| - 1]))
    ensures Slugify(rest + sep) == Slugify(rest)
  {
    if sep == [] {
      assert rest + sep == rest;
    } else {
      var lr, ls := LowerStr(rest), LowerStr(sep);
      LowerAppend(rest, sep);
      HyphenateAppend(lr, ls);
      RunHyphen(ls);
      if rest != [] {
        HyphenateLast(lr);
      }
      TrimHyphensTrail(Hyphenate(lr));
    }
  }

  /** Two words with a space between them become two words with a hyphen
      between them. */
  lemma SlugifyHelloWorld()
    ensures Slugify("hello world") == "hello-world"
  {
    var w, rest := "hello", "world";
    assert forall k :: 0 <= k < |w| ==> Lower(w[k]) == w[k] && IsSlugChar(w[k]);
    assert forall k :: 0 <= k < |rest| ==> Lower(rest[k]) == rest[k] && IsSlugChar(rest[k]);
    assert w + " " + rest == "hello world";
    assert w + "-" + rest == "hello-world";
    assert LowerStr(w) == w;
    SlugifyAlnumTitle(rest);
    SlugifySeparator(w, " ", rest);
  }

  /** A string already in slug shape is left alone by the run replacement. */
  lemma {:induction false} HyphenateFixed(s: string)
    requires SlugShape(s)
    ensures Hyphenate(s) == s
    decreases |s|
  {
    if s != [] {
      assert SlugShape(s[1..]);
      if !IsSlugChar(s[0]) {
        assert SkipRun(s[1..]) == s[1..];
      }
      HyphenateFixed(s[1..]);
    }
  }

  /** Lowering changes nothing in a string of `[a-z0-9-]`. */
  lemma LowerFixed(s: string)
    requires SlugShape(s)
    ensures LowerStr(s) == s
  {
    assert forall k :: 0 <= k < |s| ==> Lower(s[k]) == s[k];
  }

  /** A finished slug is its own slug. */
  lemma SlugFixed(s: string)
    requires IsSlug(s)
    ensures Slugify(s) == s
  {
    LowerFixed(s);
    HyphenateFixed(s);
  }

  /** Normalising twice is normalising once, so the slug field's sanitiser
      leaves a generated slug unchanged. */
  lemma SlugifyIdempotent(text: string)
    ensures Slugify(Slugify(text)) == Slugify(text)
  {
    SlugFixed(Slugify(text));
  }

  /** A title that is already lower-case letters and digits is its own slug. */
  lemma SlugifyAlnumTitle(text: string)
    requires forall k :: 0 <= k < |text| ==> IsSlugChar(text[k])
    ensures Slugify(text) == text
  {
    assert IsSlug(text);
    SlugFixed(text);
  }

  /** A title with no letter or digit has the empty slug. */
  lemma SlugifyNoAlnumTitle(text: string)
    requires forall k :: 0 <= k < |text| ==> !IsSlugChar(Lower(text[k]))
    ensures Slugify(text) == ""
  {
    var l := LowerStr(text);
    if l != [] {
      assert SkipRun(l[1..]) == [];
      assert Hyphenate(l) == "-";
    }
  }
}
