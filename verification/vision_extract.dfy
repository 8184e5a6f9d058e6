/**
  * Reading the label out of the vision model's reply: the text between the
  * first `<classification>` and the `</classification>` that follows it,
  * and in that block the stripped text after the first
  * `Final Classification:` up to a second one.
  */
module VisionExtract {
  import opened Wrappers
  import opened PyStr

  const OpenTag := "<classification>"
  const CloseTag := "</classification>"
  const Marker := "Final Classification:"

  /** `response.split("<classification>")[1].split("</classification>")[0]`. */
  function TagBlock(response: string): (block: string)
    requires Contains(response, OpenTag)
    ensures !Contains(block, CloseTag)
  {
    SplitHead(SplitSecond(response, OpenTag), CloseTag)
  }

  /** The classification the reply carries, or `None`. */
  function ExtractClassification(response: string): (r: Option<string>)
    ensures r.Some? ==> Contains(response, OpenTag) && Contains(response, CloseTag)
    ensures r.Some? ==> Contains(TagBlock(response), Marker)
    ensures r.Some? && r.value != [] ==> !IsSpace(r.value[0]) && !IsSpace(r.value[|r.value| - 1])
  {
    if Contains(response, OpenTag) && Contains(response, CloseTag) then
      var block := TagBlock(response);
      if Contains(block, Marker) then Some(Strip(SplitSecond(block, Marker))) else None
    else None
  }

  // ---------------------------------------------------------------------------
  // Properties
  // ---------------------------------------------------------------------------

  lemma TagsHeadUnique()
    ensures HeadUnique(OpenTag) && HeadUnique(CloseTag) && HeadUnique(Marker)
    ensures OpenTag[1] == 'c' && CloseTag[0] == '<' && CloseTag[1] == '/'
    ensures forall k :: 0 < k < |OpenTag| ==> OpenTag[k] != '<'
  {
  }

  /** A label is found exactly when both tags occur somewhere in the reply
      and the marker occurs in the block after the first opening tag. */
  lemma ExtractSomeIff(response: string)
    ensures ExtractClassification(response).Some? <==>
      Contains(response, OpenTag) && Contains(response, CloseTag) &&
      Contains(TagBlock(response), Marker)
  {
  }

  /** The label carries none of the tags and no marker: it is cut out of a
      single block and ends before any further marker. */
  lemma ExtractedIsClean(response: string)
    requires ExtractClassification(response).Some?
    ensures var name := ExtractClassification(response).value;
            !Contains(name, Marker) && !Contains(name, CloseTag) && !Contains(name, OpenTag)
  {
    var block := TagBlock(response);
    SplitHeadKeepsAbsent(SplitSecond(response, OpenTag), CloseTag, OpenTag);
    var tail := SplitSecond(block, Marker);
    SplitSecondKeepsAbsent(block, Marker, OpenTag);
    SplitSecondKeepsAbsent(block, Marker, CloseTag);
    StripKeepsAbsent(tail, Marker);
    StripKeepsAbsent(tail, OpenTag);
    StripKeepsAbsent(tail, CloseTag);
  }

  /** No opening tag starts inside a closing tag that follows `body`. */
  lemma NoOpenTagInCloseTag(body: string, post: string)
    ensures forall p: nat :: |body| <= p < |body| + |CloseTag| ==>
      !OccursAt(body + CloseTag + post, OpenTag, p)
  {
    TagsHeadUnique();
    var s := body + CloseTag + post;
    forall p: nat | |body| <= p < |body| + |CloseTag|
      ensures !OccursAt(s, OpenTag, p)
    {
      if p == |body| {
        assert s[p + 1] == '/';
        assert p + |OpenTag| <= |s| ==> s[p..p + |OpenTag|][1] == s[p + 1];
      } else {
        assert s[p] == CloseTag[p - |body|];
        assert p + |OpenTag| <= |s| ==> s[p..p + |OpenTag|][0] == s[p];
      }
    }
  }

  /** The first block of `body + CloseTag + post` after an opening tag runs
      at least past the closing tag that ends `body`. */
  lemma BlockAfterOpen(body: string, post: string)
    requires !Contains(body, OpenTag)
    ensures var rest := body + CloseTag + post;
            |body| + |CloseTag| <= |SplitHead(rest, OpenTag)| &&
            SplitHead(rest, OpenTag)[..|body| + |CloseTag|] == body + CloseTag
  {
    TagsHeadUnique();
    var rest := body + CloseTag + post;
    assert rest == body + (CloseTag + post);
    NoOccurrenceBefore(body, CloseTag + post, OpenTag);
    NoOpenTagInCloseTag(body, post);
    var h := SplitHead(rest, OpenTag);
    assert forall p: nat :: p < |body| + |CloseTag| ==> !OccursAt(rest, OpenTag, p);
    assert h == rest[..|h|];
  }

  /** The first tag block of a reply that opens a block right after `pre`
      and closes it right after `body` is `body`. */
  lemma TagBlockPlaced(pre: string, body: string, post: string)
    requires !Contains(pre, OpenTag)
    requires !Contains(body, OpenTag) && !Contains(body, CloseTag)
    ensures var response := pre + OpenTag + body + CloseTag + post;
            Contains(response, OpenTag) && Contains(response, CloseTag) &&
            TagBlock(response) == body
  {
    TagsHeadUnique();
    var response := pre + OpenTag + body + CloseTag + post;
    var rest := body + CloseTag + post;
    // The first opening tag is the one after `pre`.
    assert response == pre + OpenTag + rest;
    FindPlaced(pre, OpenTag, rest);
    assert response[|pre| + |OpenTag|..] == rest;
    // The block runs to the closing tag after `body`.
    BlockAfterOpen(body, post);
    var s1 := SplitSecond(response, OpenTag);
    assert s1 == SplitHead(rest, OpenTag);
    assert s1 == body + CloseTag + s1[|body| + |CloseTag|..];
    FindPlaced(body, CloseTag, s1[|body| + |CloseTag|..]);
    // The closing tag occurs.
    assert response[|pre| + |OpenTag| + |body|..|pre| + |OpenTag| + |body| + |CloseTag|] == CloseTag;
    OccursThenContains(response, CloseTag, |pre| + |OpenTag| + |body|);
  }

  /**
    * Round trip: a reply that puts `x`, the marker and a label inside the
    * first tag block gives back the stripped label, whatever precedes the
    * block and whatever follows it.
    */
  lemma ExtractRoundTrip(pre: string, x: string, name: string, post: string)
    requires !Contains(pre, OpenTag)
    requires !Contains(x + Marker + name, OpenTag) && !Contains(x + Marker + name, CloseTag)
    requires !Contains(x, Marker) && !Contains(name, Marker)
    ensures ExtractClassification(pre + OpenTag + (x + Marker + name) + CloseTag + post)
            == Some(Strip(name))
  {
    TagsHeadUnique();
    var body := x + Marker + name;
    TagBlockPlaced(pre, body, post);
    // Inside the block, the marker after `x` is the first one.
    FindPlaced(x, Marker, name);
    assert body[|x| + |Marker|..] == name;
  }
}
