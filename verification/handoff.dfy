/** Where the client meets the server. The client enables the analyze button once the
    description trims (with JavaScript's trim) to 50 characters, and hands the trimmed text to
    the request's form data; the server strips the field it receives (with Python's strip) and
    refuses it below 50 characters. The multipart encoding between them, which writes each line
    break as CRLF, is not modelled: it lengthens the text without touching its ends. The two
    whitespace sets differ: Python also strips U+001C..U+001F and U+0085. A description that
    starts or ends with one of these passes the client and can be refused by the server. The
    lengths differ too: the browser counts UTF-16 units and Python counts code points, so a
    description of astral characters passes the client at half the server's count. */
module Handoff {
  import opened Text
  import opened Wizard
  import Server

  /** The characters Python's strip removes and JavaScript's trim keeps. */
  const PyOnlyWhitespace: set<char> := {'\U{001C}', '\U{001D}', '\U{001E}', '\U{001F}', '\U{0085}'}

  lemma PyOnlyWhitespaceIsDifference()
    ensures PyOnlyWhitespace == PyWhitespace - JsWhitespace
  {
  }

  /** For a description inside the Basic Multilingual Plane, where the browser's length counts
      characters as Python's len does: when the sent description neither starts nor ends with
      one of those five characters, the server's strip changes nothing, so a description the
      client accepts passes the server's length check too. AstralDescriptionRefused shows why
      the plane matters. */
  lemma SentDescriptionPassesServer(s: Session)
    requires AnalyzeEnabled(s.file, s.desc)
    requires forall k :: 0 <= k < |s.desc| ==> !IsAstral(s.desc[k])
    requires SentDescription(s)[0] !in PyOnlyWhitespace
    requires SentDescription(s)[|SentDescription(s)| - 1] !in PyOnlyWhitespace
    ensures Strip(SentDescription(s)) == SentDescription(s)
    ensures |Strip(SentDescription(s))| >= Server.MinJobDescription
  {
    EnabledOnBmp(s.file, s.desc);
    TrimWithEnds(s.desc, JsWhitespace);
    StripKeepsClientTrim(SentDescription(s));
  }

  /** Text that starts and ends with a character neither runtime counts as whitespace is left
      alone by Python's strip. */
  lemma StripKeepsClientTrim(t: string)
    requires t != []
    requires t[0] !in JsWhitespace && t[0] !in PyOnlyWhitespace
    requires t[|t| - 1] !in JsWhitespace && t[|t| - 1] !in PyOnlyWhitespace
    ensures Strip(t) == t
  {
    PyOnlyWhitespaceIsDifference();
    TrimWithNoop(t, PyWhitespace);
  }

  /** 25 emoji (U+1F600, two UTF-16 units each): the browser counts a length of 50, enables the
      button and sends the text unchanged, while Python's len counts 25 and the server refuses
      it. */
  lemma AstralDescriptionRefused(s: Session)
    requires s.file.Some? && s.desc == seq(25, _ => '\U{1F600}')
    ensures AnalyzeEnabled(s.file, s.desc)
    ensures SentDescription(s) == s.desc
    ensures |Strip(SentDescription(s))| == 25 < Server.MinJobDescription
  {
    var desc := s.desc;
    assert desc[0] == '\U{1F600}' && desc[|desc| - 1] == '\U{1F600}';
    TrimWithNoop(desc, JsWhitespace);
    TrimWithNoop(desc, PyWhitespace);
  }

  /** U+001C followed by 49 letters: the client enables the button and sends it unchanged, the
      server strips it to 49 characters and refuses it. */
  lemma SeparatorPrefixRefused(s: Session)
    requires s.file.Some? && s.desc == ['\U{001C}'] + seq(49, _ => 'a')
    ensures AnalyzeEnabled(s.file, s.desc)
    ensures SentDescription(s) == s.desc
    ensures |Strip(SentDescription(s))| == 49 < Server.MinJobDescription
  {
    var letters := seq(49, _ => 'a');
    var desc := s.desc;
    assert desc == ['\U{001C}'] + letters;
    assert forall k :: 0 <= k < |desc| ==> !IsAstral(desc[k]);
    EnabledOnBmp(s.file, desc);
    PyOnlyWhitespaceIsDifference();
    assert '\U{001C}' in PyOnlyWhitespace;
    VisibleAsciiNotWhitespace('a');
    TrimWithNoop(desc, JsWhitespace);
    LeadingCharStripped('\U{001C}', letters, PyWhitespace);
  }

  /** A string that is one ws character followed by a body ws does not trim loses exactly that
      character. */
  lemma LeadingCharStripped(c: char, body: string, ws: set<char>)
    requires c in ws && body != [] && body[0] !in ws && body[|body| - 1] !in ws
    ensures TrimWith([c] + body, ws) == body
  {
    var d := [c] + body;
    assert TrimAt(body, d, ws, 1, |d|) by {
      assert d[1..] == body;
    }
    TrimOfUnique(TrimWith(d, ws), body, d, ws);
  }
}
