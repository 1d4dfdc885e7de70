/** `parseCaptionXml`: the text of every `<text>` element of a YouTube timed-text document, in
    document order, each with five entities decoded, newlines turned into spaces and trimmed; empty
    segments are dropped and the rest joined with single spaces. */
module Captions {
  import opened Wrappers
  import opened JsText
  import opened JsReplace

  /** One match of `/<text[^>]*>([\s\S]*?)<\/text>/g`: the bounds of the capture and where the match ends. */
  datatype TextMatch = TextMatch(bodyStart: nat, bodyEnd: nat, end: nat)

  /** The match starting at `p`: `<text`, up to the first `>`, then a lazy body up to the first `</text>`. */
  function TextAt(s: string, p: nat): (r: Option<TextMatch>)
    requires p <= |s|
    ensures r.Some? ==> p < r.value.bodyStart <= r.value.bodyEnd && r.value.end == r.value.bodyEnd + 7 <= |s|
    ensures r.Some? ==>
      && MatchesAt(s, "<text", false, p) && p + 5 < r.value.bodyStart && s[r.value.bodyStart - 1] == '>'
      && (forall k :: p + 5 <= k < r.value.bodyStart - 1 ==> s[k] != '>')
      && MatchesAt(s, "</text>", false, r.value.bodyEnd)
      && (forall j :: r.value.bodyStart <= j < r.value.bodyEnd ==> !MatchesAt(s, "</text>", false, j))
    ensures forall q, e ::
      (MatchesAt(s, "<text", false, p) && p + 5 <= q < e && q < |s| && s[q] == '>' && MatchesAt(s, "</text>", false, e))
      ==> r.Some?
  {
    if !MatchesAt(s, "<text", false, p) then None
    else
      match Find(s, ">", false, p + 5)
      case None =>
        forall k | p + 5 <= k < |s| ensures s[k] != '>' {
          assert !MatchesAt(s, ">", false, k);
          assert s[k..][..1] == [s[k]];
        }
        None
      case Some(q) =>
        assert s[q..][..1] == [s[q]];
        forall k | p + 5 <= k < q ensures s[k] != '>' {
          assert !MatchesAt(s, ">", false, k);
          assert s[k..][..1] == [s[k]];
        }
        match Find(s, "</text>", false, q + 1)
        case None => None
        case Some(e) => Some(TextMatch(q + 1, e, e + 7))
  }

  /** `regex.exec(xml)` with `regex.lastIndex == from`: the leftmost match starting at or after `from`. */
  function ExecText(s: string, from: nat): (r: Option<TextMatch>)
    requires from <= |s|
    ensures r.Some? ==> from < r.value.bodyStart <= r.value.bodyEnd && r.value.end == r.value.bodyEnd + 7 <= |s|
    ensures r.Some? ==> exists q :: from <= q <= |s| && TextAt(s, q) == r && forall j :: from <= j < q ==> TextAt(s, j).None?
    ensures r.None? ==> forall j :: from <= j <= |s| ==> TextAt(s, j).None?
  {
    var at := (q: nat) => if q <= |s| then TextAt(s, q) else None;
    var r := Leftmost(at, from, |s|);
    assert forall q :: 0 <= q <= |s| ==> at(q) == TextAt(s, q);
    r
  }

  /** The raw captures of every match from `from` on, in document order. */
  function Segments(s: string, from: nat): seq<string>
    requires from <= |s|
    decreases |s| - from
  {
    match ExecText(s, from)
    case None => []
    case Some(m) => [s[m.bodyStart..m.bodyEnd]] + Segments(s, m.end)
  }

  /** One segment decoded: `&amp;` first, then `&lt; &gt; &quot; &#39;`, newlines to spaces, trimmed.
      `&nbsp;` is left as it is. */
  function DecodeCaption(raw: string): (r: string)
    ensures r != "" ==> Trimmed(r)
  {
    Trim(ReplaceLiteral(DecodeEntities(raw), "\n", " "))
  }

  /** Newlines become spaces before trimming, so no decoded segment has a line feed. */
  lemma DecodeCaptionHasNoLineFeed(raw: string)
    ensures '\n' !in DecodeCaption(raw)
  {
    var joined := ReplaceLiteral(DecodeEntities(raw), "\n", " ");
    ReplaceCharRemovesIt(DecodeEntities(raw), '\n', " ");
    TrimKeepsAbsent(joined, '\n');
  }

  /** The five entity replacements, `&amp;` first. */
  function DecodeEntities(raw: string): string {
    var a := ReplaceLiteral(raw, "&amp;", "&");
    var b := ReplaceLiteral(a, "&lt;", "<");
    var c := ReplaceLiteral(b, "&gt;", ">");
    var d := ReplaceLiteral(c, "&quot;", "\"");
    ReplaceLiteral(d, "&#39;", "'")
  }

  /** The decoded segments that are not empty, in order: what is pushed onto `textSegments`. */
  function Kept(raws: seq<string>): seq<string> {
    if |raws| == 0 then []
    else
      var d := DecodeCaption(raws[0]);
      if d != "" then [d] + Kept(raws[1..]) else Kept(raws[1..])
  }

  lemma SegmentsStep(s: string, from: nat)
    requires from <= |s|
    ensures ExecText(s, from).None? ==> Segments(s, from) == []
    ensures ExecText(s, from).Some? ==> var m := ExecText(s, from).value;
      Segments(s, from) == [s[m.bodyStart..m.bodyEnd]] + Segments(s, m.end)
  {
  }

  /** Every kept segment is non-empty and trimmed. */
  lemma {:induction false} KeptTrimmed(raws: seq<string>)
    ensures forall i :: 0 <= i < |Kept(raws)| ==> Trimmed(Kept(raws)[i])
  {
    if |raws| > 0 {
      KeptTrimmed(raws[1..]);
      var d := DecodeCaption(raws[0]);
      var rest := Kept(raws[1..]);
      if d != "" {
        assert Kept(raws) == [d] + rest;
        forall i | 0 <= i < |Kept(raws)| ensures Trimmed(Kept(raws)[i]) {
          if i > 0 { assert Kept(raws)[i] == rest[i - 1]; }
        }
      }
    }
  }

  lemma KeptCons(raw: string, rest: seq<string>)
    ensures Kept([raw] + rest) == (if DecodeCaption(raw) != "" then [DecodeCaption(raw)] else []) + Kept(rest)
  {
    assert ([raw] + rest)[1..] == rest;
  }

  /** The value `parseCaptionXml(xml)` returns. */
  function CaptionText(xml: string): string {
    Join(Kept(Segments(xml, 0)), " ")
  }

  /** `parseCaptionXml` as written: a `while` loop over `regex.exec` pushing non-empty decoded
      segments, then `join(" ")`. */
  method ParseCaptionXml(xml: string) returns (text: string)
    ensures text == CaptionText(xml)
  {
    var textSegments: seq<string> := [];
    var lastIndex := 0;
    while true
      invariant lastIndex <= |xml|
      invariant Kept(Segments(xml, 0)) == textSegments + Kept(Segments(xml, lastIndex))
      decreases |xml| - lastIndex
    {
      var next := ExecText(xml, lastIndex);
      if next.None? {
        SegmentsStep(xml, lastIndex);
        break;
      }
      var m := next.value;
      var decoded := DecodeCaption(xml[m.bodyStart..m.bodyEnd]);
      KeptStep(xml, lastIndex);
      ghost var rest := Kept(Segments(xml, m.end));
      if decoded != "" {
        AppendAssoc(textSegments, [decoded], rest);
        textSegments := textSegments + [decoded];
      }
      lastIndex := m.end;
    }
    assert textSegments + [] == textSegments;
    text := Join(textSegments, " ");
  }

  /** One turn of the loop: the segment found at `from` is kept when it decodes to something. */
  lemma KeptStep(s: string, from: nat)
    requires from <= |s| && ExecText(s, from).Some?
    ensures var m := ExecText(s, from).value;
      var d := DecodeCaption(s[m.bodyStart..m.bodyEnd]);
      Kept(Segments(s, from)) == (if d != "" then [d] else []) + Kept(Segments(s, m.end))
  {
    var m := ExecText(s, from).value;
    SegmentsStep(s, from);
    KeptCons(s[m.bodyStart..m.bodyEnd], Segments(s, m.end));
  }

  lemma AppendAssoc(a: seq<string>, b: seq<string>, c: seq<string>)
    ensures a + (b + c) == (a + b) + c
  {
  }

  /** Joining non-empty segments that neither start nor end with whitespace gives a string that
      neither starts nor ends with whitespace, and that is empty only when there are no segments. */
  lemma {:induction false} JoinKeepsEnds(segs: seq<string>)
    requires forall i :: 0 <= i < |segs| ==> Trimmed(segs[i])
    ensures var r := Join(segs, " "); (r == "" <==> segs == []) && (r != "" ==> Trimmed(r))
  {
    if |segs| > 1 {
      JoinKeepsEnds(segs[1..]);
      var rest := Join(segs[1..], " ");
      assert Join(segs, " ") == segs[0] + " " + rest;
    }
  }

  /** The caption text has no whitespace at either end. */
  lemma CaptionTextTrimmed(xml: string)
    ensures CaptionText(xml) != "" ==> Trimmed(CaptionText(xml))
  {
    var kept := Kept(Segments(xml, 0));
    KeptTrimmed(Segments(xml, 0));
    JoinKeepsEnds(kept);
    assert CaptionText(xml) == Join(kept, " ");
  }

  /** Newlines inside a segment become spaces, so the caption text has no line feed. */
  lemma CaptionTextHasNoLineFeed(xml: string)
    ensures '\n' !in CaptionText(xml)
  {
    var kept := Kept(Segments(xml, 0));
    KeptHasNoLineFeed(Segments(xml, 0));
    JoinHasNoLineFeed(kept);
    assert CaptionText(xml) == Join(kept, " ");
  }

  lemma {:induction false} KeptHasNoLineFeed(raws: seq<string>)
    ensures forall i :: 0 <= i < |Kept(raws)| ==> '\n' !in Kept(raws)[i]
  {
    if |raws| > 0 {
      KeptHasNoLineFeed(raws[1..]);
      DecodeCaptionHasNoLineFeed(raws[0]);
      var d := DecodeCaption(raws[0]);
      var rest := Kept(raws[1..]);
      if d != "" {
        assert Kept(raws) == [d] + rest;
        forall i | 0 <= i < |Kept(raws)| ensures '\n' !in Kept(raws)[i] {
          if i > 0 { assert Kept(raws)[i] == rest[i - 1]; }
        }
      }
    }
  }

  lemma {:induction false} JoinHasNoLineFeed(segs: seq<string>)
    requires forall i :: 0 <= i < |segs| ==> '\n' !in segs[i]
    ensures '\n' !in Join(segs, " ")
  {
    if |segs| > 1 {
      JoinHasNoLineFeed(segs[1..]);
      assert Join(segs, " ") == segs[0] + " " + Join(segs[1..], " ");
    }
  }

  /** The caption text is empty exactly when every `<text>` element decodes to an empty segment. */
  lemma {:induction false} CaptionTextEmptyIff(xml: string)
    ensures CaptionText(xml) == "" <==> forall i :: 0 <= i < |Segments(xml, 0)| ==> DecodeCaption(Segments(xml, 0)[i]) == ""
  {
    var segs := Segments(xml, 0);
    var kept := Kept(segs);
    KeptTrimmed(segs);
    JoinKeepsEnds(kept);
    KeptEmptyIff(segs);
    assert CaptionText(xml) == Join(kept, " ");
  }

  lemma {:induction false} KeptEmptyIff(raws: seq<string>)
    ensures Kept(raws) == [] <==> forall i :: 0 <= i < |raws| ==> DecodeCaption(raws[i]) == ""
  {
    if |raws| > 0 {
      KeptEmptyIff(raws[1..]);
      assert forall i :: 1 <= i < |raws| ==> raws[i] == raws[1..][i - 1];
    }
  }

  /** A document with no `<text` in it has no caption text. */
  lemma {:induction false} NoTextElementNoCaption(xml: string, from: nat)
    requires from <= |xml|
    requires forall i :: from <= i <= |xml| ==> !MatchesAt(xml, "<text", false, i)
    ensures Segments(xml, from) == []
    decreases |xml| - from
  {
    if from < |xml| {
      NoTextElementNoCaption(xml, from + 1);
    }
  }

  /** `&amp;` is decoded first, so `&amp;lt;` comes out as `<`. */
  lemma AmpersandDecodedFirst()
    ensures DecodeCaption("&amp;lt;") == "<"
  {
    var s := "&amp;lt;";
    ReplaceLiteralHit(s, "&amp;", "&");
    assert s[5..] == "lt;";
    ReplaceLiteralAbsent("lt;", "&amp;", "&");
    var a := "&lt;";
    assert ReplaceLiteral(s, "&amp;", "&") == a;
    ReplaceLiteralHit(a, "&lt;", "<");
    assert a[4..] == "";
    ReplaceLiteralAbsent("", "&lt;", "<");
    ReplaceLiteralAbsent("<", "&gt;", ">");
    ReplaceLiteralAbsent("<", "&quot;", "\"");
    ReplaceLiteralAbsent("<", "&#39;", "'");
    ReplaceLiteralAbsent("<", "\n", " ");
  }

  /** `&nbsp;` is not one of the entities captions decode. */
  lemma NbspKept()
    ensures DecodeCaption("&nbsp;") == "&nbsp;"
  {
    var s := "&nbsp;";
    NbspNotAnEntity();
    ReplaceLiteralAbsent(s, "\n", " ");
    TrimWithoutOuterSpaces(s);
  }

  lemma NbspNotAnEntity()
    ensures DecodeEntities("&nbsp;") == "&nbsp;"
  {
    var s := "&nbsp;";
    assert s[1] == 'n' && '&' !in s[1..];
    ReplaceLiteralOnlyFalseStart(s, "&amp;", "&");
    ReplaceLiteralOnlyFalseStart(s, "&lt;", "<");
    ReplaceLiteralOnlyFalseStart(s, "&gt;", ">");
    ReplaceLiteralOnlyFalseStart(s, "&quot;", "\"");
    ReplaceLiteralOnlyFalseStart(s, "&#39;", "'");
  }
}
