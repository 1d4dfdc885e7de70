/** `extractMainContent` and `extractTitleFromHtml`: best-effort text and title of a page by regular
    expressions, since the background worker has no DOM. Each regex is a scanning function with the
    regex's own semantics: leftmost match, lazy `*?` stopping at the first possible end, `/i`
    comparing ASCII letters without case, `/g` resuming after each match. */
module HtmlExtract {
  import opened Wrappers
  import opened JsText
  import opened JsReplace

  /** The length of a match of `/<tag[\s\S]*?<\/tag>/gi` starting at the first character of `t`:
      from `<tag` to the end of the first `</tag>` after it, in any letter case. */
  function BlockLen(tag: string, t: string): (n: nat)
    ensures n <= |t|
    ensures n > 0 ==> StartsWithCI(t, "<" + tag) && n >= |tag| + 3 && MatchesAt(t, "</" + tag + ">", true, n - |tag| - 3)
    ensures n > 0 ==> forall j :: |tag| + 1 <= j < n - |tag| - 3 ==> !MatchesAt(t, "</" + tag + ">", true, j)
    ensures StartsWithCI(t, "<" + tag) && (exists j :: |tag| + 1 <= j <= |t| && MatchesAt(t, "</" + tag + ">", true, j)) ==> n > 0
  {
    if StartsWithCI(t, "<" + tag) then
      match Find(t, "</" + tag + ">", true, |tag| + 1)
      case Some(e) => e + |tag| + 3
      case None => 0
    else 0
  }

  function Block(tag: string): string -> nat {
    t => BlockLen(tag, t)
  }

  /** `s.replace(/<tag[\s\S]*?<\/tag>/gi, "")`. */
  function RemoveBlocks(s: string, tag: string): string {
    ReplaceMatches(s, Block(tag), "")
  }

  /** The six deletions that run before anything else: script, style, nav, header, footer, aside. */
  function StripBoilerplate(html: string): string {
    var a := RemoveBlocks(html, "script");
    var b := RemoveBlocks(a, "style");
    var c := RemoveBlocks(b, "nav");
    var d := RemoveBlocks(c, "header");
    var e := RemoveBlocks(d, "footer");
    RemoveBlocks(e, "aside")
  }

  /** The boilerplate removal only deletes: what remains is a subsequence of the page. */
  lemma StripBoilerplateDeletesOnly(html: string)
    ensures IsSubsequence(StripBoilerplate(html), html)
    ensures |StripBoilerplate(html)| <= |html|
  {
    var a := RemoveBlocks(html, "script");
    var b := RemoveBlocks(a, "style");
    var c := RemoveBlocks(b, "nav");
    var d := RemoveBlocks(c, "header");
    var e := RemoveBlocks(d, "footer");
    var f := RemoveBlocks(e, "aside");
    DeletionIsSubsequence(html, Block("script"));
    DeletionIsSubsequence(a, Block("style"));
    DeletionIsSubsequence(b, Block("nav"));
    DeletionIsSubsequence(c, Block("header"));
    DeletionIsSubsequence(d, Block("footer"));
    DeletionIsSubsequence(e, Block("aside"));
    SubsequenceTransitive(b, a, html);
    SubsequenceTransitive(c, b, html);
    SubsequenceTransitive(d, c, html);
    SubsequenceTransitive(e, d, html);
    SubsequenceTransitive(f, e, html);
    SubsequenceNoLonger(f, html);
  }

  /** A page with no `<script`, `<style`, `<nav`, `<header`, `<footer` or `<aside` (in any case)
      passes the removal unchanged. */
  lemma StripBoilerplateWithoutBlocks(html: string)
    requires forall i :: 0 <= i <= |html| ==>
      !MatchesAt(html, "<script", true, i) && !MatchesAt(html, "<style", true, i) &&
      !MatchesAt(html, "<nav", true, i) && !MatchesAt(html, "<header", true, i) &&
      !MatchesAt(html, "<footer", true, i) && !MatchesAt(html, "<aside", true, i)
    ensures StripBoilerplate(html) == html
  {
    assert "<" + "script" == "<script" && "<" + "style" == "<style" && "<" + "nav" == "<nav";
    assert "<" + "header" == "<header" && "<" + "footer" == "<footer" && "<" + "aside" == "<aside";
    RemoveBlocksWithoutOpening(html, "script");
    RemoveBlocksWithoutOpening(html, "style");
    RemoveBlocksWithoutOpening(html, "nav");
    RemoveBlocksWithoutOpening(html, "header");
    RemoveBlocksWithoutOpening(html, "footer");
    RemoveBlocksWithoutOpening(html, "aside");
  }

  lemma RemoveBlocksWithoutOpening(s: string, tag: string)
    requires forall i :: 0 <= i <= |s| ==> !MatchesAt(s, "<" + tag, true, i)
    ensures RemoveBlocks(s, tag) == s
  {
    assert NoMatch(s, Block(tag)) by {
      forall i | 0 <= i < |s| ensures !MatchHere(s[i..], Block(tag)) {
        assert !MatchesAt(s, "<" + tag, true, i);
      }
    }
    ReplaceWithoutMatch(s, Block(tag), "");
  }

  /** A closing `</article>` or `</main>` starts at `e`. */
  predicate ArticleCloseAt(s: string, e: nat) {
    MatchesAt(s, "</article>", true, e) || MatchesAt(s, "</main>", true, e)
  }

  /** The first closing `</article>` or `</main>` at or after `from`. */
  function FindArticleClose(s: string, from: nat): (r: Option<nat>)
    requires from <= |s|
    ensures r.Some? ==> from <= r.value <= |s| && ArticleCloseAt(s, r.value)
    ensures forall j :: from <= j <= |s| && (r.None? || j < r.value) ==> !ArticleCloseAt(s, j)
    decreases |s| - from
  {
    if ArticleCloseAt(s, from) then Some(from)
    else if from == |s| then None
    else FindArticleClose(s, from + 1)
  }

  /** `<article` (`n` = 8) or `<main` (`n` = 5), in any case, starts at `p`. */
  predicate ArticleOpenAt(s: string, p: nat, n: nat) {
    (n == 8 && MatchesAt(s, "<article", true, p)) || (n == 5 && MatchesAt(s, "<main", true, p))
  }

  /** An opening of length `n` at `p`, the first `>` after it just before `b`, and the first
      `</article>` or `</main>` after that at `e`. */
  predicate ArticleMatch(s: string, p: nat, n: nat, b: nat, e: nat) {
    && ArticleOpenAt(s, p, n) && p + n < b <= e <= |s|
    && s[b - 1] == '>' && (forall k :: p + n <= k < b - 1 ==> s[k] != '>')
    && ArticleCloseAt(s, e)
    && (forall j :: b <= j < e ==> !ArticleCloseAt(s, j))
  }

  /** The inner text captured by `/<(?:article|main)[\s\S]*?>([\s\S]*?)<\/(?:article|main)>/i`
      when the match starts at `p`: after the first `>` that follows the opening, up to the first
      closing tag of either name. There is a match whenever such a `>` and a closing tag follow. */
  function ArticleAt(s: string, p: nat): (r: Option<string>)
    requires p <= |s|
    ensures r.Some? ==> exists n: nat, b: nat, e: nat :: ArticleMatch(s, p, n, b, e) && r.value == s[b..e]
    ensures forall n, q, e ::
      (ArticleOpenAt(s, p, n) && p + n <= q < e && q < |s| && s[q] == '>' && ArticleCloseAt(s, e)) ==> r.Some?
  {
    var name :=
      if MatchesAt(s, "<article", true, p) then 8
      else if MatchesAt(s, "<main", true, p) then 5
      else 0;
    assert forall n :: ArticleOpenAt(s, p, n) ==> n == name by {
      assert MatchesAt(s, "<article", true, p) ==> !MatchesAt(s, "<main", true, p) by {
        if MatchesAt(s, "<article", true, p) { assert Lower(s[p..][1]) == 'a'; }
      }
    }
    if name == 0 then None
    else
      match Find(s, ">", false, p + name)
      case None =>
        forall k | p + name <= k < |s| ensures s[k] != '>' {
          assert !MatchesAt(s, ">", false, k);
          assert s[k..][..1] == [s[k]];
        }
        None
      case Some(q) =>
        assert s[q..][..1] == [s[q]];
        forall k | p + name <= k < q ensures s[k] != '>' {
          assert !MatchesAt(s, ">", false, k);
          assert s[k..][..1] == [s[k]];
        }
        match FindArticleClose(s, q + 1)
        case None => None
        case Some(e) =>
          assert ArticleMatch(s, p, name, q + 1, e);
          Some(s[q + 1..e])
  }

  /** The leftmost match of the article regex at or after `p`. */
  function ArticleFrom(s: string, p: nat): (r: Option<string>)
    requires p <= |s|
    ensures r.Some? ==> exists q :: p <= q <= |s| && ArticleAt(s, q) == r && forall j :: p <= j < q ==> ArticleAt(s, j).None?
    ensures r.None? ==> forall j :: p <= j <= |s| ==> ArticleAt(s, j).None?
  {
    var at := (q: nat) => if q <= |s| then ArticleAt(s, q) else None;
    var r := Leftmost(at, p, |s|);
    assert forall q :: 0 <= q <= |s| ==> at(q) == ArticleAt(s, q);
    r
  }

  /** The length of a match of `/<[^>]+>/g` starting at the first character of `t`: a `<`, at least
      one character other than `>`, and the first `>` after them. */
  function TagLen(t: string): (n: nat)
    ensures n <= |t|
  {
    if |t| >= 2 && t[0] == '<' && t[1] != '>' then
      match Find(t, ">", false, 2)
      case Some(q) => q + 1
      case None => 0
    else 0
  }

  function Tag(): string -> nat {
    t => TagLen(t)
  }

  /** `s.replace(/<[^>]+>/g, " ")`. */
  function StripTags(s: string): string {
    ReplaceMatches(s, Tag(), " ")
  }

  /** `s.replace(/&nbsp;/g, " ")` followed by the five entities `&amp; &lt; &gt; &quot; &#39;`, in this order. */
  function DecodeHtmlEntities(s: string): string {
    var a := ReplaceLiteral(s, "&nbsp;", " ");
    var b := ReplaceLiteral(a, "&amp;", "&");
    var c := ReplaceLiteral(b, "&lt;", "<");
    var d := ReplaceLiteral(c, "&gt;", ">");
    var e := ReplaceLiteral(d, "&quot;", "\"");
    ReplaceLiteral(e, "&#39;", "'")
  }

  function SpaceRun(): string -> nat {
    t => SkipSpaces(t, 0)
  }

  /** `s.replace(/\s+/g, " ")`. */
  function CollapseSpaces(s: string): string {
    ReplaceMatches(s, SpaceRun(), " ")
  }

  /** The page text: tags to spaces, entities decoded, whitespace collapsed, trimmed. */
  function TextOf(fragment: string): string {
    Trim(CollapseSpaces(DecodeHtmlEntities(StripTags(fragment))))
  }

  /** `<title` in any case at `p`, the first `>` after it just before `b`, and the first `</title>`
      after that at `e`. */
  predicate TitleMatch(s: string, p: nat, b: nat, e: nat) {
    && MatchesAt(s, "<title", true, p) && p + 6 < b <= e && e + 8 <= |s|
    && s[b - 1] == '>' && (forall k :: p + 6 <= k < b - 1 ==> s[k] != '>')
    && MatchesAt(s, "</title>", true, e)
    && (forall j :: b <= j < e ==> !MatchesAt(s, "</title>", true, j))
  }

  /** The match of `/<title[^>]*>([\s\S]*?)<\/title>/i` starting at `p`, as the bounds of its capture:
      `<title` in any case, the first `>` after it, and the first `</title>` after that. */
  function TitleAt(s: string, p: nat): (r: Option<(nat, nat)>)
    requires p <= |s|
    ensures r.Some? ==> TitleMatch(s, p, r.value.0, r.value.1)
    ensures forall q, e ::
      (MatchesAt(s, "<title", true, p) && p + 6 <= q < e && q < |s| && s[q] == '>' && MatchesAt(s, "</title>", true, e))
      ==> r.Some?
  {
    if !MatchesAt(s, "<title", true, p) then None
    else
      match Find(s, ">", false, p + 6)
      case None =>
        forall k | p + 6 <= k < |s| ensures s[k] != '>' {
          assert !MatchesAt(s, ">", false, k);
          assert s[k..][..1] == [s[k]];
        }
        None
      case Some(q) =>
        assert s[q..][..1] == [s[q]];
        forall k | p + 6 <= k < q ensures s[k] != '>' {
          assert !MatchesAt(s, ">", false, k);
          assert s[k..][..1] == [s[k]];
        }
        match Find(s, "</title>", true, q + 1)
        case None => None
        case Some(e) => Some((q + 1, e))
  }

  /** The leftmost title match at or after `p`. */
  function TitleFrom(s: string, p: nat): (r: Option<(nat, nat)>)
    requires p <= |s|
    ensures r.Some? ==> r.value.0 <= r.value.1 <= |s|
    ensures r.Some? ==> exists q :: p <= q <= |s| && TitleAt(s, q) == r && forall j :: p <= j < q ==> TitleAt(s, j).None?
    ensures r.None? ==> forall j :: p <= j <= |s| ==> TitleAt(s, j).None?
  {
    var at := (q: nat) => if q <= |s| then TitleAt(s, q) else None;
    var r := Leftmost(at, p, |s|);
    assert forall q :: 0 <= q <= |s| ==> at(q) == TitleAt(s, q);
    r
  }

  /** `extractTitleFromHtml`: the trimmed text of the first `<title>` element, or null. */
  function ExtractTitleFromHtml(html: string): Option<string> {
    match TitleFrom(html, 0)
    case None => None
    case Some((b, e)) => Some(Trim(html[b..e]))
  }

  /** The title is the trimmed capture of the leftmost `<title…>…</title>` match, and null exactly
      when no position starts a match. */
  lemma TitleOfFirstMatch(html: string, q: nat)
    requires q <= |html| && TitleAt(html, q).Some?
    requires forall j :: 0 <= j < q ==> TitleAt(html, j).None?
    ensures var (b, e) := TitleAt(html, q).value; ExtractTitleFromHtml(html) == Some(Trim(html[b..e]))
  {
    var r := TitleFrom(html, 0);
    var q' :| 0 <= q' <= |html| && TitleAt(html, q') == r && forall j :: 0 <= j < q' ==> TitleAt(html, j).None?;
    assert q' == q;
  }

  lemma NoTitleWithoutMatch(html: string)
    ensures ExtractTitleFromHtml(html).None? <==> forall j :: 0 <= j <= |html| ==> TitleAt(html, j).None?
  {
    if TitleFrom(html, 0).Some? {
      var q :| 0 <= q <= |html| && TitleAt(html, q) == TitleFrom(html, 0);
    }
  }

  /** The result of `extractMainContent`. */
  datatype MainContent = MainContent(title: string, textContent: string)

  /** `extractMainContent`: the title (or ""), and the text of the first article or main element of
      the page with its boilerplate blocks already removed, or of the whole cleaned page when there is none. */
  function ExtractMainContent(html: string): MainContent {
    var title := match ExtractTitleFromHtml(html) case Some(t) => t case None => "";
    var cleaned := StripBoilerplate(html);
    var body := match ArticleFrom(cleaned, 0) case Some(inner) => inner case None => cleaned;
    MainContent(title, TextOf(body))
  }

  /** After `\s+` is replaced by one space, no two whitespace characters are adjacent, and the result
      starts with whitespace exactly when the input does. */
  lemma {:induction false} CollapseSpacesShape(s: string)
    ensures NoAdjacentSpaces(CollapseSpaces(s))
    ensures |s| > 0 ==> |CollapseSpaces(s)| > 0 && (IsSpace(CollapseSpaces(s)[0]) <==> IsSpace(s[0]))
    decreases |s|
  {
    if |s| > 0 {
      var n := SkipSpaces(s, 0);
      if MatchHere(s, SpaceRun()) {
        var rest := s[n..];
        CollapseSpacesShape(rest);
        var r := CollapseSpaces(s);
        assert r == " " + CollapseSpaces(rest);
        assert |rest| > 0 ==> rest[0] == s[n];
      } else {
        CollapseSpacesShape(s[1..]);
      }
    }
  }

  /** The text `extractMainContent` returns has no run of two whitespace characters and no
      whitespace at either end. */
  lemma MainContentTextShape(html: string)
    ensures NoAdjacentSpaces(ExtractMainContent(html).textContent)
    ensures var t := ExtractMainContent(html).textContent;
      |t| > 0 ==> !IsSpace(t[0]) && !IsSpace(t[|t| - 1])
  {
    var cleaned := StripBoilerplate(html);
    var body := match ArticleFrom(cleaned, 0) case Some(inner) => inner case None => cleaned;
    var collapsed := CollapseSpaces(DecodeHtmlEntities(StripTags(body)));
    CollapseSpacesShape(DecodeHtmlEntities(StripTags(body)));
    TrimKeepsNoAdjacentSpaces(collapsed);
  }

  /** No tag is left after `/<[^>]+>/g` is replaced by spaces: no position of the result starts a
      `<`, some non-`>` characters and a `>`. (Entity decoding afterwards may still produce `<`.) */
  lemma {:induction false} StripTagsLeavesNoTag(s: string)
    ensures NoMatch(StripTags(s), Tag())
    decreases |s|
  {
    if |s| > 0 {
      if MatchHere(s, Tag()) {
        StripTagsLeavesNoTag(s[TagLen(s)..]);
        TagReplacedBySpace(s);
      } else {
        StripTagsLeavesNoTag(s[1..]);
        HeadKept(s);
      }
    }
  }

  /** A tag at the head becomes a space, which starts no tag. */
  lemma TagReplacedBySpace(s: string)
    requires |s| > 0 && MatchHere(s, Tag())
    requires NoMatch(StripTags(s[TagLen(s)..]), Tag())
    ensures NoMatch(StripTags(s), Tag())
  {
    var r := StripTags(s);
    var rest := StripTags(s[TagLen(s)..]);
    assert r == " " + rest;
    forall i | 0 <= i < |r| ensures !MatchHere(r[i..], Tag()) {
      if i > 0 { assert r[i..] == rest[i - 1..]; }
    }
  }

  /** A head character that starts no tag is kept, and starts no tag in the result either. */
  lemma HeadKept(s: string)
    requires |s| > 0 && !MatchHere(s, Tag())
    requires NoMatch(StripTags(s[1..]), Tag())
    ensures NoMatch(StripTags(s), Tag())
  {
    var r := StripTags(s);
    var rest := StripTags(s[1..]);
    assert r == [s[0]] + rest;
    forall i | 0 <= i < |r| ensures !MatchHere(r[i..], Tag()) {
      if i > 0 {
        assert r[i..] == rest[i - 1..];
      } else {
        assert r[0..] == r;
        HeadStartsNoTag(s);
      }
    }
  }

  lemma HeadStartsNoTag(s: string)
    requires |s| > 0 && !MatchHere(s, Tag())
    ensures !MatchHere(StripTags(s), Tag())
  {
    var r := StripTags(s);
    var rest := StripTags(s[1..]);
    assert r == [s[0]] + rest;
    if s[0] == '<' && |r| >= 2 && r[1] != '>' {
      // No match at the head of `s`: either `s[1]` is `>`, which is kept, or no `>` follows.
      if |s| >= 2 && s[1] == '>' {
        KeepsUnmatchedHead(s[1..], Tag(), " ");
      } else {
        NoCloseAngleLeft(s);
        NoNewCharacter(s[1..], Tag(), " ", '>');
        assert Find(r, ">", false, 2).None? by {
          forall j | 2 <= j <= |r| ensures !MatchesAt(r, ">", false, j) {
            if j < |r| { assert r[j] == rest[j - 1]; assert r[j] in rest; }
          }
        }
      }
    }
  }

  /** When no tag starts at a `<` followed by a non-`>`, no `>` follows it at all. */
  lemma NoCloseAngleLeft(s: string)
    requires |s| >= 2 && s[0] == '<' && s[1] != '>' && !MatchHere(s, Tag())
    ensures '>' !in s[1..]
  {
    assert Find(s, ">", false, 2).None?;
    forall j | 1 <= j < |s| ensures s[j] != '>' {
      if j >= 2 { assert !MatchesAt(s, ">", false, j); assert s[j..][..1] == [s[j]]; }
    }
  }
}
