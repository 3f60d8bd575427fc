/**
 * The content tab of the blog editor: the word-count and read-time effect
 * over the editor's HTML, and the featured-image handlers.
 */
module ContentTab {
  import opened Wrappers
  import opened Strings
  import opened Seqs
  import opened BlogImage

  /**
   * `html.replace(/<[^>]*>/g, ' ')`: scanning left to right, a `<` that has a
   * `>` somewhere after it starts a tag running to the first such `>`, and
   * the whole tag becomes one space; a `<` with no `>` after it is kept.
   */
  function StripTags(s: string): (r: string)
    ensures |r| <= |s|
    ensures forall c :: c in r ==> c in s || c == ' '
    ensures forall i, j :: 0 <= i < j < |r| && r[i] == '<' ==> r[j] != '>'
    decreases |s|
  {
    if s == [] then []
    else if s[0] == '<' && IndexOf(s, '>') < |s| then " " + StripTags(s[IndexOf(s, '>') + 1..])
    else
      var rest := StripTags(s[1..]);
      assert s[0] == '<' ==> '>' !in s[1..];
      assert forall j :: 0 <= j < |rest| ==> rest[j] in rest;
      [s[0]] + rest
  }

  /** Total number of characters in a list of strings. */
  function TotalLength(pieces: seq<string>): nat {
    if pieces == [] then 0 else |pieces[0]| + TotalLength(pieces[1..])
  }

  /** The string contains no whitespace character. */
  predicate NoSpace(w: string) {
    forall k :: 0 <= k < |w| ==> !IsSpace(w[k])
  }

  /**
   * `text.split(/\s+/)`: the pieces between maximal runs of whitespace. A run
   * at the start or the end yields an empty first or last piece, and the
   * empty string splits into one empty piece.
   */
  function SplitWs(s: string): (pieces: seq<string>)
    ensures |pieces| >= 1
    decreases |s|
  {
    if s == [] then [""]
    else if IsSpace(s[0]) then [""] + SplitWs(TrimStart(s))
    else
      var rest := SplitWs(s[1..]);
      [[s[0]] + rest[0]] + rest[1..]
  }

  /** No piece holds whitespace, and the pieces together with one separator
      between each two fit in the text. */
  lemma {:induction false} SplitWsSpec(s: string)
    ensures forall w :: w in SplitWs(s) ==> NoSpace(w)
    ensures TotalLength(SplitWs(s)) + |SplitWs(s)| <= |s| + 1
    decreases |s|
  {
    if s != [] {
      if IsSpace(s[0]) {
        var t := TrimStart(s);
        var pieces := SplitWs(t);
        SplitWsSpec(t);
        assert |t| < |s|;
        assert SplitWs(s) == [""] + pieces;
        assert ([""] + pieces)[1..] == pieces;
      } else {
        var rest := SplitWs(s[1..]);
        var head, tail := rest[0], rest[1..];
        var w := [s[0]] + head;
        SplitWsSpec(s[1..]);
        assert SplitWs(s) == [w] + tail;
        assert rest == [head] + tail;
        assert head in rest;
        assert NoSpace(w) by {
          forall k | 0 <= k < |w| ensures !IsSpace(w[k]) {
            if k > 0 {
              assert w[k] == head[k - 1];
            }
          }
        }
        assert forall x :: x in tail ==> x in rest;
        assert ([w] + tail)[1..] == tail;
        assert TotalLength(rest) == |head| + TotalLength(tail);
      }
    }
  }

  /** The test `word => word.length > 0`. */
  function NonEmpty(): string -> bool {
    w => |w| > 0
  }

  /** `text.split(/\s+/).filter(word => word.length > 0)`. */
  function Words(text: string): seq<string> {
    Filter(SplitWs(text), NonEmpty())
  }

  /** The words of the editor content: none when the content is falsy
      (missing or empty), otherwise those of the tag-stripped text. */
  function ContentWords(content: Option<string>): seq<string> {
    if content.Some? && content.value != "" then Words(StripTags(content.value)) else []
  }

  /** Average reading speed used for the estimate. */
  const WordsPerMinute: nat := 225

  /** The two values the effect stores. */
  datatype Metrics = Metrics(wordCount: nat, readTime: nat)

  /**
   * The effect on `content`: the word count, and `Math.ceil(words / 225)`
   * minutes. Falsy content yields zero for both.
   */
  function ContentMetrics(content: Option<string>): (m: Metrics)
    ensures m.wordCount == |ContentWords(content)|
    ensures m.readTime * WordsPerMinute >= m.wordCount
    ensures m.readTime == 0 || (m.readTime - 1) * WordsPerMinute < m.wordCount
    ensures content.None? || content == Some("") ==> m == Metrics(0, 0)
  {
    var n := |ContentWords(content)|;
    Metrics(n, (n + WordsPerMinute - 1) / WordsPerMinute)
  }

  /** No words means no reading time and the other way round; up to one
      minute's worth of words reads in exactly one minute. */
  lemma ReadTimeBounds(content: Option<string>)
    ensures ContentMetrics(content).wordCount == 0 <==> ContentMetrics(content).readTime == 0
    ensures 1 <= ContentMetrics(content).wordCount <= WordsPerMinute ==> ContentMetrics(content).readTime == 1
  {
  }

  /** The stored word count is the number of words that begin in the
      tag-stripped content, and 0 for falsy content. */
  lemma ContentWordCount(content: Option<string>)
    ensures content.Some? && content.value != "" ==>
              ContentMetrics(content).wordCount == StartsFrom(StripTags(content.value), 0)
    ensures content.None? || content.value == "" ==> ContentMetrics(content).wordCount == 0
  {
    if content.Some? && content.value != "" {
      WordCount(StripTags(content.value));
    }
  }

  /** Only non-empty pieces contribute characters, so there are no more of
      them than characters. */
  lemma {:induction false} NonEmptyPiecesBound(pieces: seq<string>)
    ensures |Filter(pieces, NonEmpty())| <= TotalLength(pieces)
  {
    if pieces != [] {
      NonEmptyPiecesBound(pieces[1..]);
    }
  }

  /** Every counted word is a non-empty run of non-whitespace characters,
      and there are never more words than characters of content. */
  lemma WordsAreTokens(content: Option<string>)
    ensures forall w :: w in ContentWords(content) ==> |w| > 0 && NoSpace(w)
    ensures content.Some? ==> ContentMetrics(content).wordCount <= |content.value|
  {
    if content.Some? && content.value != "" {
      var text := StripTags(content.value);
      SplitWsSpec(text);
      NonEmptyPiecesBound(SplitWs(text));
    }
  }

  /** A tag whose body holds no `>` counts as one space, whatever follows. */
  lemma TagBecomesSpace(body: string, rest: string)
    requires '>' !in body
    ensures StripTags("<" + body + ">" + rest) == " " + StripTags(rest)
  {
    var s := "<" + body + ">" + rest;
    var k := IndexOf(s, '>');
    assert s[|body| + 1] == '>';
    assert forall j :: 1 <= j <= |body| ==> s[j] == body[j - 1];
    assert k == |body| + 1;
    assert s[k + 1..] == rest;
  }

  /** Text without `<` is copied unchanged, whatever follows it. */
  lemma {:induction false} TextKept(a: string, rest: string)
    requires '<' !in a
    ensures StripTags(a + rest) == a + StripTags(rest)
    decreases |a|
  {
    if a != [] {
      var s := a + rest;
      assert s[0] == a[0] && s[1..] == a[1..] + rest;
      TextKept(a[1..], rest);
      assert a + StripTags(rest) == [a[0]] + (a[1..] + StripTags(rest));
    } else {
      assert a + rest == rest;
    }
  }

  /** Text in which no `>` follows is copied unchanged: an unclosed `<` is
      not a tag. */
  lemma {:induction false} UnclosedKept(s: string)
    requires '>' !in s
    ensures StripTags(s) == s
    decreases |s|
  {
    if s != [] {
      assert IndexOf(s, '>') == |s|;
      assert '>' !in s[1..];
      UnclosedKept(s[1..]);
      assert s == [s[0]] + s[1..];
    }
  }

  /** A word begins at index `k`: a non-whitespace character at the start or
      after whitespace. */
  predicate WordStart(s: string, k: nat)
    requires k < |s|
  {
    !IsSpace(s[k]) && (k == 0 || IsSpace(s[k - 1]))
  }

  /** The number of indices from `i` on at which a word begins. */
  function StartsFrom(s: string, i: nat): nat
    requires i <= |s|
    decreases |s| - i
  {
    if i == |s| then 0 else (if WordStart(s, i) then 1 else 0) + StartsFrom(s, i + 1)
  }

  /** Past its first character a suffix has the word starts of the whole. */
  lemma {:induction false} StartsShift(s: string, d: nat, i: nat)
    requires d <= |s| && 1 <= i <= |s| - d
    ensures StartsFrom(s, d + i) == StartsFrom(s[d..], i)
    decreases |s| - d - i
  {
    if i < |s| - d {
      var t := s[d..];
      assert s[d + i] == t[i] && s[d + i - 1] == t[i - 1];
      StartsShift(s, d, i + 1);
    }
  }

  /** No word begins inside a run of whitespace. */
  lemma {:induction false} StartsSkipSpaces(s: string, i: nat, d: nat)
    requires i <= d <= |s|
    requires forall k :: 0 <= k < d ==> IsSpace(s[k])
    ensures StartsFrom(s, i) == StartsFrom(s, d)
    decreases d - i
  {
    if i < d {
      StartsSkipSpaces(s, i + 1, d);
    }
  }

  /** The first piece is empty exactly when the text is empty or starts with
      whitespace. */
  lemma FirstPieceEmpty(s: string)
    ensures SplitWs(s)[0] == "" <==> s == [] || IsSpace(s[0])
  {
  }

  /** `split(/\s+/).filter(w => w.length > 0)` yields one word per index at
      which a word begins, so the word count counts the maximal runs of
      non-whitespace characters. */
  lemma {:induction false} WordCount(s: string)
    ensures |Words(s)| == StartsFrom(s, 0)
    decreases |s|
  {
    if s == [] {
      assert Words(s) == Filter([""], NonEmpty());
      assert [""][1..] == [];
    } else if IsSpace(s[0]) {
      var t := TrimStart(s);
      var d := |s| - |t|;
      assert d >= 1;
      WordCount(t);
      var pieces := SplitWs(t);
      assert SplitWs(s) == [""] + pieces;
      assert (["" ] + pieces)[1..] == pieces;
      assert Words(s) == Words(t);
      StartsSkipSpaces(s, 0, d);
      if d < |s| {
        assert s[d] == t[0] && IsSpace(s[d - 1]);
        assert WordStart(s, d) == WordStart(t, 0);
        StartsShift(s, d, 1);
      }
    } else {
      var t := s[1..];
      var rest := SplitWs(t);
      WordCount(t);
      FirstPieceEmpty(t);
      var tail := Filter(rest[1..], NonEmpty());
      assert SplitWs(s) == [[s[0]] + rest[0]] + rest[1..];
      assert Words(s) == [[s[0]] + rest[0]] + tail;
      assert rest == [rest[0]] + rest[1..];
      assert Words(t) == (if |rest[0]| > 0 then [rest[0]] else []) + tail;
      if t != [] {
        assert !WordStart(s, 1);
        StartsShift(s, 1, 1);
      }
    }
  }

  /** The pieces written one after another. */
  function Concat(pieces: seq<string>): string {
    if pieces == [] then "" else pieces[0] + Concat(pieces[1..])
  }

  /** The test "not whitespace". */
  function NotSpace(): char -> bool {
    c => !IsSpace(c)
  }

  /** Dropping empty pieces changes nothing in their concatenation. */
  lemma {:induction false} ConcatNonEmpty(pieces: seq<string>)
    ensures Concat(Filter(pieces, NonEmpty())) == Concat(pieces)
  {
    if pieces != [] {
      ConcatNonEmpty(pieces[1..]);
      if |pieces[0]| > 0 {
        var f := Filter(pieces, NonEmpty());
        assert f == [pieces[0]] + Filter(pieces[1..], NonEmpty());
        assert f[1..] == Filter(pieces[1..], NonEmpty());
      } else {
        assert Filter(pieces, NonEmpty()) == Filter(pieces[1..], NonEmpty());
        assert pieces[0] == "";
        assert pieces[0] + Concat(pieces[1..]) == Concat(pieces[1..]);
      }
    }
  }

  /** Concatenating a first piece and the rest. */
  lemma ConcatCons(w: string, tail: seq<string>)
    ensures Concat([w] + tail) == w + Concat(tail)
  {
    assert ([w] + tail)[1..] == tail;
  }

  /** Whitespace alone keeps no character. */
  lemma {:induction false} FilterAllSpace(x: string)
    requires forall k :: 0 <= k < |x| ==> IsSpace(x[k])
    ensures Filter(x, NotSpace()) == []
  {
    if x != [] {
      FilterAllSpace(x[1..]);
    }
  }

  /** Whitespace in front keeps no character. */
  lemma FilterSpacePrefix(pre: string, t: string)
    requires forall k :: 0 <= k < |pre| ==> IsSpace(pre[k])
    ensures Filter(pre + t, NotSpace()) == Filter(t, NotSpace())
  {
    FilterAllSpace(pre);
    FilterAppend(pre, t, NotSpace());
    assert [] + Filter(t, NotSpace()) == Filter(t, NotSpace());
  }

  /** Leading whitespace adds one empty piece and nothing else. */
  lemma SplitSpaceConcat(s: string)
    requires s != [] && IsSpace(s[0])
    ensures Concat(SplitWs(s)) == Concat(SplitWs(TrimStart(s)))
  {
    var pieces := SplitWs(TrimStart(s));
    assert SplitWs(s) == [""] + pieces;
    ConcatCons("", pieces);
    assert "" + Concat(pieces) == Concat(pieces);
  }

  /** Leading whitespace keeps no character. */
  lemma FilterTrimStart(s: string)
    ensures Filter(s, NotSpace()) == Filter(TrimStart(s), NotSpace())
  {
    var t := TrimStart(s);
    var pre := s[..|s| - |t|];
    assert s == pre + t;
    assert forall k :: 0 <= k < |pre| ==> pre[k] == s[k];
    FilterSpacePrefix(pre, t);
  }

  /** The step of `SplitKeepsText` for text starting with another character. */
  lemma SplitKeepsTextWord(s: string)
    requires s != [] && !IsSpace(s[0])
    requires Concat(SplitWs(s[1..])) == Filter(s[1..], NotSpace())
    ensures Concat(SplitWs(s)) == Filter(s, NotSpace())
  {
    var rest := SplitWs(s[1..]);
    var head, tail := rest[0], rest[1..];
    assert SplitWs(s) == [[s[0]] + head] + tail;
    ConcatCons([s[0]] + head, tail);
    ConcatCons(head, tail);
    assert rest == [head] + tail;
    var c := Concat(tail);
    Assoc([s[0]], head, c);
    assert Filter(s, NotSpace()) == [s[0]] + Filter(s[1..], NotSpace());
  }

  /** The pieces of `split(/\s+/)` together hold exactly the characters of
      the text that are not whitespace, in their order. */
  lemma {:induction false} SplitKeepsText(s: string)
    ensures Concat(SplitWs(s)) == Filter(s, NotSpace())
    decreases |s|
  {
    if s == [] {
      assert Concat([""]) == "" + Concat([""][1..]);
    } else if IsSpace(s[0]) {
      SplitKeepsText(TrimStart(s));
      SplitSpaceConcat(s);
      FilterTrimStart(s);
    } else {
      SplitKeepsText(s[1..]);
      SplitKeepsTextWord(s);
    }
  }

  /** The counted words together hold exactly the non-whitespace characters
      of the text, in their order: no text is lost or invented. */
  lemma WordsKeepText(s: string)
    ensures Concat(Words(s)) == Filter(s, NotSpace())
  {
    ConcatNonEmpty(SplitWs(s));
    SplitKeepsText(s);
  }

  lemma StripClosingTag()
    ensures StripTags("</p>") == " "
  {
    var s := "</p>";
    assert s[3] == '>' && s[2] != '>' && s[1] != '>' && s[0] != '>';
    assert IndexOf(s, '>') == 3;
    assert s[4..] == "";
  }

  lemma StripParagraph()
    ensures StripTags("<p></p>") == "  "
  {
    var s := "<p></p>";
    assert s[2] == '>' && s[1] != '>' && s[0] != '>';
    assert IndexOf(s, '>') == 2;
    assert s[3..] == "</p>";
    StripClosingTag();
  }

  lemma TwoSpacesNoWords()
    ensures Words("  ") == []
  {
    var blank := "  ";
    assert blank[1..] == " " && " "[1..] == "";
    assert TrimStart(" ") == "";
    assert TrimStart(blank) == "";
    var pieces := SplitWs(blank);
    assert pieces == ["", ""];
    assert pieces[1..] == [""] && [""][1..] == [];
    assert Filter([""], NonEmpty()) == [];
    assert Filter(pieces, NonEmpty()) == Filter([""], NonEmpty());
  }

  /** Markup alone has no words: `<p></p>` counts 0 words and 0 minutes. */
  lemma MarkupOnlyCountsNothing()
    ensures ContentMetrics(Some("<p></p>")) == Metrics(0, 0)
  {
    StripParagraph();
    TwoSpacesNoWords();
    assert ContentWords(Some("<p></p>")) == [];
  }

  lemma StripBreak()
    ensures StripTags("a<br>b") == "a b"
  {
    TagBecomesSpace("br", "b");
    assert "<br>b" == "<" + "br" + ">" + "b";
    assert "a<br>b"[1..] == "<br>b";
    assert StripTags("b") == "b" by {
      assert "b"[1..] == "";
      assert StripTags("") == "";
    }
    assert StripTags("<br>b") == " b";
  }

  lemma SplitOneWord()
    ensures SplitWs("b") == ["b"]
  {
    assert "b"[1..] == "";
    assert SplitWs("") == [""];
    assert !IsSpace('b');
    assert ['b'] + "" == "b";
    assert [""][1..] == [];
  }

  lemma SplitTwoWords()
    ensures SplitWs("a b") == ["a", "b"]
  {
    SplitOneWord();
    assert TrimStart(" b") == "b" by {
      assert " b"[1..] == "b";
    }
    assert SplitWs(" b") == ["", "b"];
    assert "a b"[1..] == " b";
    assert !IsSpace('a');
    assert ["", "b"][1..] == ["b"];
    assert ['a'] + "" == "a";
    assert SplitWs("a b") == [['a'] + ""] + ["b"];
  }

  lemma TwoWords()
    ensures Words("a b") == ["a", "b"]
  {
    SplitTwoWords();
    assert ["a", "b"][1..] == ["b"];
    assert ["b"][1..] == [];
    assert Filter(["b"], NonEmpty()) == ["b"];
  }

  /** A tag separates words: `a<br>b` counts 2 words. */
  lemma TagSeparatesWords()
    ensures ContentMetrics(Some("a<br>b")) == Metrics(2, 1)
  {
    StripBreak();
    TwoWords();
    assert ContentWords(Some("a<br>b")) == ["a", "b"];
  }

  /**
   * The props the tab reads and sets: the editor content with the metrics
   * derived from it, and the featured image with its preview URL and alt
   * text.
   */
  class ContentEditor {
    var content: Option<string>
    var wordCount: nat
    var estimatedReadTime: nat
    var image: Option<ImageFile>
    var preview: string
    var imageAlt: string

    /** The metrics are those of the current content, as the effect leaves them. */
    ghost predicate Valid()
      reads this
    {
      Metrics(wordCount, estimatedReadTime) == ContentMetrics(content)
    }

    constructor (initial: Option<string>)
      ensures Valid() && content == initial
      ensures image == None && preview == "" && imageAlt == ""
    {
      content := initial;
      var m := ContentMetrics(initial);
      wordCount, estimatedReadTime := m.wordCount, m.readTime;
      image, preview, imageAlt := None, "", "";
    }

    /** The editor's `onChange` followed by the effect it triggers. */
    method ChangeContent(html: string)
      modifies this`content, this`wordCount, this`estimatedReadTime
      ensures Valid() && content == Some(html)
    {
      content := Some(html);
      var m := ContentMetrics(content);
      wordCount := m.wordCount;
      estimatedReadTime := m.readTime;
    }

    /**
     * `handleImageChange`: no file changes nothing; a file over the limit
     * raises the alert and changes nothing; otherwise the file and its
     * object URL (supplied by the browser) are stored.
     */
    method HandleImageChange(file: Option<ImageFile>, objectUrl: string) returns (alerted: bool)
      requires Valid()
      modifies this`image, this`preview
      ensures Valid()
      ensures alerted <==> file.Some? && !WithinSizeLimit(file.value)
      ensures file.Some? && WithinSizeLimit(file.value) ==> image == file && preview == objectUrl
      ensures !(file.Some? && WithinSizeLimit(file.value)) ==> image == old(image) && preview == old(preview)
    {
      alerted := false;
      if file.Some? {
        if file.value.size > MaxImageBytes {
          alerted := true;
          return;
        }
        image := file;
        preview := objectUrl;
      }
    }

    /** `removeImage`: the image, its preview and its alt text go together. */
    method RemoveImage()
      requires Valid()
      modifies this`image, this`preview, this`imageAlt
      ensures Valid()
      ensures image == None && preview == "" && imageAlt == ""
    {
      image := None;
      preview := "";
      imageAlt := "";
    }
  }
}
