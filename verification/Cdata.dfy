/**
 Text in CDATA sections of feeds (src/fo_feeds.c): every "]]>" is split over two sections.
 Strings are C strings, without their terminating NUL.
 */
module Cdata {
  import opened Wrappers

  const OPEN := "<![CDATA["
  const CLOSE := "]]>"
  const SPLIT := "]]]><![CDATA[]>"

  predicate CloseAt(s: string, j: nat) { j + 3 <= |s| && s[j] == ']' && s[j + 1] == ']' && s[j + 2] == '>' }

  function CloseFrom(s: string, i: nat): (k: nat)
    requires i <= |s|
    ensures i <= k <= |s| && (k < |s| ==> CloseAt(s, k))
    ensures forall j :: i <= j < k ==> !CloseAt(s, j)
    decreases |s| - i
  {
    if i == |s| || CloseAt(s, i) then i else CloseFrom(s, i + 1)
  }

  /** `strstr(s, "]]>")` as an index; the length if there is none. */
  function FindClose(s: string): (k: nat)
    ensures k <= |s| && (k < |s| ==> CloseAt(s, k))
    ensures forall j :: 0 <= j < k ==> !CloseAt(s, j)
  {
    CloseFrom(s, 0)
  }

  lemma FirstClose(s: string, k: nat)
    requires CloseAt(s, k) && forall j :: 0 <= j < k ==> !CloseAt(s, j)
    ensures FindClose(s) == k
  {
  }

  /** What `cf_str_str_cdata_append` appends. */
  function CdataText(src: string): string
    decreases |src|
  {
    var k := FindClose(src);
    if k == |src| then src else src[..k] + SPLIT + CdataText(src[k + 3..])
  }

  method AppendCdata(dest0: string, src: string) returns (dest: string)
    ensures dest == dest0 + CdataText(src)
  {
    hide CdataText, FindClose;
    dest := dest0;
    var ptr := 0;
    assert src[0..] == src;
    var found := FindClose(src);
    while ptr + found < |src|
      invariant 0 <= ptr <= |src| && found == FindClose(src[ptr..])
      invariant dest0 + CdataText(src) == dest + CdataText(src[ptr..])
      decreases |src| - ptr
    {
      CdataNext(src, ptr, found);
      Grouped(dest, src[ptr..ptr + found], SPLIT, CdataText(src[ptr + found + 3..]));
      dest := dest + src[ptr..ptr + found];
      dest := dest + SPLIT;
      ptr := ptr + found + 3;
      found := FindClose(src[ptr..]);
    }
    CdataStep(src[ptr..]);
    dest := dest + src[ptr..];
  }

  lemma CdataNext(src: string, ptr: nat, found: nat)
    requires ptr <= |src| && found == FindClose(src[ptr..]) && ptr + found < |src|
    ensures ptr + found + 3 <= |src|
    ensures CdataText(src[ptr..]) == src[ptr..ptr + found] + SPLIT + CdataText(src[ptr + found + 3..])
  {
    hide CdataText, FindClose;
    CdataStep(src[ptr..]);
    assert CloseAt(src[ptr..], found);
    assert src[ptr..][..found] == src[ptr..ptr + found];
    assert src[ptr..][found + 3..] == src[ptr + found + 3..];
  }

  /** The text up to the first "]]>" and the rest. */
  lemma CdataStep(src: string)
    ensures var k := FindClose(src);
            CdataText(src) == if k == |src| then src else src[..k] + SPLIT + CdataText(src[k + 3..])
  {
    hide FindClose;
  }

  /** The first "]]>" of a text is split behind its first bracket. */
  lemma Splits(a: string, rest: string)
    requires FindClose(a + "]]>" + rest) == |a|
    ensures CdataText(a + "]]>" + rest) == a + "]]]><![CDATA[]>" + CdataText(rest)
  {
    hide FindClose;
    var src := a + "]]>" + rest;
    assert src[..|a|] == a && src[|a| + 3..] == rest;
  }

  lemma Grouped(a: string, b: string, c: string, d: string)
    ensures a + (b + c + d) == a + b + c + d
  {
  }

  /** Reading consecutive CDATA sections, each up to its first "]]>", to the end of the
      text (section 2.7 of XML 1.0); None if something else is found. */
  function ReadSections(s: string): Option<string>
    decreases |s|
  {
    if s == [] then Some([])
    else if !(OPEN <= s) then None
    else
      var body := s[|OPEN|..];
      var k := FindClose(body);
      if k == |body| then None
      else
        match ReadSections(body[k + 3..])
        case None => None
        case Some(rest) => Some(body[..k] + rest)
  }

  lemma OneSection(body: string, rest: string)
    requires FindClose(body + CLOSE + rest) == |body|
    ensures ReadSections(OPEN + body + CLOSE + rest) ==
            match ReadSections(rest) case None => None case Some(r) => Some(body + r)
  {
    hide FindClose;
    var s := OPEN + body + CLOSE + rest;
    assert s[..|OPEN|] == OPEN;
    assert s[|OPEN|..] == body + CLOSE + rest;
    assert (body + CLOSE + rest)[..|body|] == body;
    assert (body + CLOSE + rest)[|body| + 3..] == rest;
  }

  /** What a section may start with: nothing, or the rest of a split "]]>". */
  predicate Start(pre: string) { pre == "" || pre == "]>" }

  /** Text without "]]>" ends at the "]]>" behind it. */
  lemma BodyEnds(pre: string, text: string, rest: string)
    requires Start(pre) && forall j :: 0 <= j < |text| ==> !CloseAt(text, j)
    ensures FindClose(pre + text + CLOSE + rest) == |pre + text|
  {
    hide FindClose;
    var body, s := pre + text, pre + text + CLOSE + rest;
    forall j | 0 <= j < |body| ensures !CloseAt(s, j) {
      if |pre| <= j && j + 3 <= |body| {
        assert !CloseAt(text, j - |pre|);
        assert s[j] == text[j - |pre|] && s[j + 1] == text[j - |pre| + 1] && s[j + 2] == text[j - |pre| + 2];
      }
    }
    assert CloseAt(s, |body|);
    FirstClose(s, |body|);
  }

  lemma CutBefore(src: string, k: nat)
    requires k == FindClose(src) && k < |src|
    ensures var text := src[..k] + "]"; forall j :: 0 <= j < |text| ==> !CloseAt(text, j)
    ensures src == src[..k] + CLOSE + src[k + 3..]
  {
    var text := src[..k] + "]";
    forall j | 0 <= j < |text| ensures !CloseAt(text, j) {
      assert j < k ==> !CloseAt(src, j);
    }
  }

  lemma Pieces(pre: string, a: string, more: string)
    ensures OPEN + pre + (a + SPLIT + more) + CLOSE == OPEN + (pre + (a + "]")) + CLOSE + (OPEN + "]>" + more + CLOSE)
    ensures pre + (a + "]") + ("]>" + more) == pre + (a + CLOSE + more)
  {
    assert SPLIT == "]" + CLOSE + OPEN + "]>";
  }

  lemma {:induction false} SectionsFrom(pre: string, src: string)
    requires Start(pre)
    ensures ReadSections(OPEN + pre + CdataText(src) + CLOSE) == Some(pre + src)
    decreases |src|
  {
    hide FindClose, ReadSections, Start;
    var k := FindClose(src);
    if k == |src| {
      LastSection(pre, src);
    } else {
      CutBefore(src, k);
      var text, more := src[..k] + "]", src[k + 3..];
      Starts();
      SectionsFrom("]>", more);
      BodyEnds(pre, text, OPEN + "]>" + CdataText(more) + CLOSE);
      OneSection(pre + text, OPEN + "]>" + CdataText(more) + CLOSE);
      Pieces(pre, src[..k], CdataText(more));
      Pieces(pre, src[..k], more);
    }
  }

  lemma Starts()
    ensures Start("") && Start("]>")
  {
  }

  lemma LastSection(pre: string, src: string)
    requires Start(pre) && FindClose(src) == |src|
    ensures ReadSections(OPEN + pre + CdataText(src) + CLOSE) == Some(pre + src)
  {
    hide FindClose, Start;
    BodyEnds(pre, src, "");
    OneSection(pre + src, "");
    assert OPEN + (pre + src) + CLOSE + "" == OPEN + pre + src + CLOSE;
    assert pre + src + "" == pre + src;
  }

  /** Any text put into a feed comes out again: the sections are read to the end and their
      contents joined are the text. */
  lemma CdataRoundTrip(src: string)
    ensures ReadSections(OPEN + CdataText(src) + CLOSE) == Some(src)
  {
    hide ReadSections, CdataText;
    Starts();
    SectionsFrom("", src);
    assert OPEN + "" == OPEN && "" + src == src;
  }
}
