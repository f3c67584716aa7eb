/** Recognising blocks of preformatted HTML (src/block.rs). */
module HtmlBlock {
  import opened Bytes
  import opened BlockScan

  const BlockTags: set<bytes> := {
    "address", "article", "aside", "blockquote", "canvas", "del", "div", "dl", "fieldset",
    "figcaption", "figure", "footer", "form", "h1", "h2", "h3", "h4", "h5", "h6", "header",
    "hgroup", "iframe", "ins", "main", "math", "nav", "noscript", "ol", "output", "p", "pre",
    "progress", "script", "section", "style", "table", "ul", "video"}

  function TagName(data: bytes): bytes { data[..Skip(data, 0, IsAlnum)] }

  method ReadTagName(data: bytes) returns (name: bytes)
    ensures name == TagName(data)
  {
    var i := 0;
    while i < |data| && IsAlnum(data[i])
      invariant 0 <= i <= |data| && forall k :: 0 <= k < i ==> IsAlnum(data[k])
    {
      i := i + 1;
    }
    SkipUnique(data, 0, IsAlnum, i);
    return data[..i];
  }

  // ----- comments -----

  predicate ClosesComment(data: bytes, i: nat)
    requires 2 <= i < |data|
  {
    data[i - 2] == '-' && data[i - 1] == '-' && data[i] == '>'
  }

  function CommentEnd(data: bytes, i: nat): (j: nat)
    requires 2 <= i <= |data|
    ensures i <= j <= |data| && (j < |data| ==> ClosesComment(data, j))
    ensures forall k :: i <= k < j ==> !ClosesComment(data, k)
    decreases |data| - i
  {
    if i < |data| && !ClosesComment(data, i) then CommentEnd(data, i + 1) else i
  }

  /** Length of an HTML comment.  The search for `-->` starts at offset 5, so
      `<!-->` is not one. */
  function CommentLen(data: bytes): (n: nat)
    ensures n <= |data|
    ensures n > 0 ==> n >= 6 && data[..4] == "<!--" && ClosesComment(data, n - 1)
  {
    if |data| < 5 || data[..4] != "<!--" then 0
    else
      var i := CommentEnd(data, 5);
      if i >= |data| then 0 else i + 1
  }

  method InlineHtmlComment(data: bytes) returns (n: nat)
    ensures n == CommentLen(data)
  {
    if |data| < 5 { return 0; }
    if data[..4] != "<!--" { return 0; }
    var i := 5;
    while i < |data| && !(data[i - 2] == '-' && data[i - 1] == '-' && data[i] == '>')
      invariant 5 <= i <= |data| && CommentEnd(data, i) == CommentEnd(data, 5)
    {
      i := i + 1;
    }
    if i >= |data| { return 0; }
    return i + 1;
  }

  /** A comment block is a comment and the rest of its line, which must be blank. */
  function CommentBlock(data: bytes): (n: nat)
    ensures n <= |data|
  {
    var i := CommentLen(data);
    var j := BlankLen(data[i..]);
    if j > 0 then i + j else 0
  }

  // ----- hr -----

  predicate HrStart(data: bytes) {
    |data| >= 4 && data[0] == '<' && (data[1] == 'h' || data[1] == 'H') && (data[2] == 'r' || data[2] == 'R')
    && (data[3] == ' ' || data[3] == '/' || data[3] == '>')
  }

  function NotTagEnd(): byte -> bool { c => c != '>' && c != '\n' }

  function HrBlock(data: bytes): (n: nat)
    ensures n <= |data|
  {
    if !HrStart(data) then 0
    else
      var i := Skip(data, 3, NotTagEnd());
      if i < |data| && data[i] == '>' then
        var j := BlankLen(data[i + 1..]);
        if j > 0 then i + 1 + j else 0
      else 0
  }

  method HtmlHr(data: bytes) returns (n: nat)
    ensures n == HrBlock(data)
  {
    if |data| < 4 { return 0; }
    if data[0] != '<' || (data[1] != 'h' && data[1] != 'H') || (data[2] != 'r' && data[2] != 'R') { return 0; }
    if data[3] != ' ' && data[3] != '/' && data[3] != '>' { return 0; }
    var i := 3;
    while i < |data| && data[i] != '>' && data[i] != '\n'
      invariant 3 <= i <= |data| && forall k :: 3 <= k < i ==> NotTagEnd()(data[k])
    {
      i := i + 1;
    }
    SkipUnique(data, 3, NotTagEnd(), i);
    if i < |data| && data[i] == '>' {
      i := i + 1;
      var j := IsEmpty(data[i..]);
      if j > 0 { return i + j; }
    }
    return 0;
  }

  // ----- block tags -----

  /** Length of the closing tag at the start of `data` with the blank line that must
      follow it, and without `lax` a second one; 0 if it does not match. */
  function CloseLen(tag: bytes, data: bytes, lax: bool): (n: nat)
    ensures n <= |data| && (n > 0 ==> n > |tag| + 3)
  {
    var close := "</" + tag + ">";
    if !StartsWith(data, close) then 0
    else
      var i := |close| + BlankLen(data[|close|..]);
      if i == |close| then 0
      else if i >= |data| || lax then i
      else
        var j := BlankLen(data[i..]);
        if j == 0 then 0 else i + j
  }

  method HtmlFindEnd(tag: bytes, data: bytes, lax: bool) returns (n: nat)
    ensures n == CloseLen(tag, data, lax)
  {
    var close := "</" + tag + ">";
    if !StartsWith(data, close) { return 0; }
    var i := |close|;
    var skip := IsEmpty(data[i..]);
    if skip == 0 { return 0; }
    i := i + skip;
    if i >= |data| { return i; }
    if lax { return i; }
    skip := IsEmpty(data[i..]);
    if skip == 0 { return 0; }
    return i + skip;
  }

  /** The next `</`, as the position of its slash, at or after `i`. */
  function NextClose(data: bytes, i: nat): (j: nat)
    requires 1 <= i <= |data|
    ensures i <= j <= |data|
    ensures j < |data| ==> data[j - 1] == '<' && data[j] == '/'
    ensures forall k :: i <= k < j ==> !(data[k - 1] == '<' && data[k] == '/')
    decreases |data| - i
  {
    if i < |data| && !(data[i - 1] == '<' && data[i] == '/') then NextClose(data, i + 1) else i
  }

  /** End of the block opened by `tag`, searching past position `i`; 0 if none. */
  function BlockEnd(tag: bytes, data: bytes, i: nat, lax: bool): (n: nat)
    requires 1 <= i <= |data|
    ensures n <= |data|
    decreases |data| - i
  {
    if i >= |data| then 0
    else
      var k := NextClose(data, i + 1);
      if k + 2 + |tag| >= |data| then 0
      else
        var j := CloseLen(tag, data[k - 1..], lax);
        if j > 0 then k - 1 + j else BlockEnd(tag, data, k, lax)
  }

  method FindBlockEnd(tag: bytes, data: bytes, lax: bool) returns (n: nat)
    requires |data| >= 1
    ensures n == BlockEnd(tag, data, 1, lax)
  {
    var i := 1;
    while i < |data|
      invariant 1 <= i <= |data| && BlockEnd(tag, data, i, lax) == BlockEnd(tag, data, 1, lax)
    {
      var k := i + 1;
      while k < |data| && !(data[k - 1] == '<' && data[k] == '/')
        invariant i < k <= |data| && NextClose(data, k) == NextClose(data, i + 1)
      {
        k := k + 1;
      }
      if k + 2 + |tag| >= |data| { return 0; }
      var j := HtmlFindEnd(tag, data[k - 1..], lax);
      if j > 0 { return k - 1 + j; }
      i := k;
    }
    return 0;
  }

  /** Size of the HTML block at the start of `data`; 0 if there is none. */
  function HtmlSize(data: bytes, lax: bool): (n: nat)
    requires data != []
    ensures n <= |data|
  {
    if data[0] != '<' then 0
    else
      var tag := TagName(data[1..]);
      if tag !in BlockTags then (if CommentBlock(data) > 0 then CommentBlock(data) else HrBlock(data))
      else if tag == "ins" || tag == "del" then 0
      else BlockEnd(tag, data, 1, lax)
  }

  method ScanHtml(data: bytes, lax: bool) returns (n: nat)
    requires data != []
    ensures n == HtmlSize(data, lax)
  {
    if data[0] != '<' { return 0; }
    var tag := ReadTagName(data[1..]);
    if tag !in BlockTags {
      var i := InlineHtmlComment(data);
      var j := IsEmpty(data[i..]);
      if j > 0 { return i + j; }
      n := HtmlHr(data);
      return;
    }
    if tag != "ins" && tag != "del" {
      n := FindBlockEnd(tag, data, lax);
      return;
    }
    return 0;
  }

  /** The content of an HTML block: its bytes without the trailing newlines. */
  function WithoutNewlines(data: bytes): (r: bytes)
    ensures r <= data && (r != [] ==> r[|r| - 1] != '\n')
  {
    if data != [] && data[|data| - 1] == '\n' then WithoutNewlines(data[..|data| - 1]) else data
  }

  method TrimNewlines(data: bytes) returns (r: bytes)
    ensures r == WithoutNewlines(data)
  {
    var end := |data|;
    assert data[..end] == data;
    while end > 0 && data[end - 1] == '\n'
      invariant 0 <= end <= |data| && WithoutNewlines(data[..end]) == WithoutNewlines(data)
    {
      assert data[..end][..end - 1] == data[..end - 1];
      end := end - 1;
    }
    return data[..end];
  }
}
