/** Tag words: what the renderer writes, with attributes and text kept apart, and the
    stack machine that says when such a word is well nested. */
module Tags {
  import opened Bytes
  import HeadingIds

  /** `HeadingId` is the id of a heading before its prefix and suffix are put on. */
  datatype Attr = Attr(name: bytes, value: bytes) | HeadingId(id: bytes)

  /** An image is written in two parts around its alternative text, which is an
      attribute value: no tag may come between them. */
  datatype Token =
    | Open(tag: bytes, attrs: seq<Attr>)
    | Close(tag: bytes)
    | Void(tag: bytes)
    | Chars(text: bytes)
    | Raw(html: bytes)
    | ImgOpen(src: bytes)
    | ImgClose(title: Option<bytes>)

  const Img: bytes := "img"

  /** Not inside an attribute value. */
  predicate Free(stack: seq<bytes>) { stack == [] || stack[|stack| - 1] != Img }

  function Step(stack: seq<bytes>, t: Token): Option<seq<bytes>> {
    match t
    case Open(tag, _) => if Free(stack) then Some(stack + [tag]) else None
    case Close(tag) =>
      if stack != [] && stack[|stack| - 1] == tag && tag != Img then Some(stack[..|stack| - 1]) else None
    case Void(_) => if Free(stack) then Some(stack) else None
    case Chars(_) => Some(stack)
    case Raw(_) => if Free(stack) then Some(stack) else None
    case ImgOpen(_) => if Free(stack) then Some(stack + [Img]) else None
    case ImgClose(_) => if Free(stack) then None else Some(stack[..|stack| - 1])
  }

  /** The elements open after a word, innermost last; `None` if a tag does not match. */
  function Run(stack: seq<bytes>, ts: seq<Token>): Option<seq<bytes>>
    decreases |ts|
  {
    if ts == [] then Some(stack)
    else match Step(stack, ts[0])
      case None => None
      case Some(s) => Run(s, ts[1..])
  }

  lemma {:induction false} RunConcat(stack: seq<bytes>, a: seq<Token>, b: seq<Token>)
    ensures Run(stack, a + b) == match Run(stack, a) case None => None case Some(s) => Run(s, b)
    decreases |a|
  {
    if a == [] {
      assert [] + b == b;
    } else {
      assert (a + b)[1..] == a[1..] + b;
      if Step(stack, a[0]).Some? { RunConcat(Step(stack, a[0]).value, a[1..], b); }
    }
  }

  lemma RunTwo(stack: seq<bytes>, a: seq<Token>, b: seq<Token>, mid: seq<bytes>)
    requires Run(stack, a) == Some(mid)
    ensures Run(stack, a + b) == Run(mid, b)
  {
    RunConcat(stack, a, b);
  }

  lemma RunOne(stack: seq<bytes>, t: Token)
    ensures Run(stack, [t]) == Step(stack, t)
  {
  }

  // ----- what the machine does not look at -----

  function BlankAttr(a: Attr): Attr { if a.HeadingId? then HeadingId("") else a }

  /** A token without its text or heading id. */
  function Blank(t: Token): Token {
    match t
    case Open(tag, attrs) => Open(tag, seq(|attrs|, k requires 0 <= k < |attrs| => BlankAttr(attrs[k])))
    case Chars(_) => Chars("")
    case _ => t
  }

  function Blanked(ts: seq<Token>): seq<Token> {
    seq(|ts|, k requires 0 <= k < |ts| => Blank(ts[k]))
  }

  lemma BlankedConcat(a: seq<Token>, b: seq<Token>)
    ensures Blanked(a + b) == Blanked(a) + Blanked(b)
  {
  }

  lemma {:induction false} RunBlanked(stack: seq<bytes>, ts: seq<Token>)
    ensures Run(stack, Blanked(ts)) == Run(stack, ts)
    decreases |ts|
  {
    if ts != [] {
      assert Blanked(ts)[1..] == Blanked(ts[1..]);
      if Step(stack, ts[0]).Some? { RunBlanked(Step(stack, ts[0]).value, ts[1..]); }
    }
  }

  /** The heading ids in a word, in order. */
  function IdsOf(ts: seq<Token>): seq<bytes> {
    if ts == [] then []
    else IdsOf(ts[..|ts| - 1]) + TokenIds(ts[|ts| - 1])
  }

  function TokenIds(t: Token): seq<bytes> {
    if t.Open? then AttrIds(t.attrs) else []
  }

  function AttrIds(attrs: seq<Attr>): seq<bytes> {
    if attrs == [] then []
    else AttrIds(attrs[..|attrs| - 1])
         + (if attrs[|attrs| - 1].HeadingId? then [attrs[|attrs| - 1].id] else [])
  }

  lemma {:induction false} IdsOfConcat(a: seq<Token>, b: seq<Token>)
    ensures IdsOf(a + b) == IdsOf(a) + IdsOf(b)
    decreases |b|
  {
    if b == [] {
      assert a + b == a;
    } else {
      assert (a + b)[..|a + b| - 1] == a + b[..|b| - 1];
      IdsOfConcat(a, b[..|b| - 1]);
    }
  }

  // ----- the table of contents -----

  function Times(n: nat, ts: seq<Token>): seq<Token> {
    if n == 0 then [] else Times(n - 1, ts) + ts
  }

  /** `n` lists, one inside an item of the other. */
  function Nest(n: nat): seq<bytes> {
    if n == 0 then [] else Nest(n - 1) + ["ul", "li"]
  }

  const OpenList: seq<Token> := [Open("ul", []), Open("li", [])]
  const CloseList: seq<Token> := [Close("li"), Close("ul")]
  const NextItem: seq<Token> := [Close("li"), Open("li", [])]

  /** Moving from a heading at depth `cur` to one at `level`. */
  function TocStep(cur: nat, level: nat): seq<Token> {
    if level == cur then NextItem
    else if level < cur then Times(cur - level, CloseList) + NextItem
    else Times(level - cur, OpenList)
  }

  datatype Entry = Entry(level: nat, content: seq<Token>)

  function TocId(k: nat): bytes { "toc_" + HeadingIds.Decimal(k) }

  function Anchor(k: nat, content: seq<Token>): seq<Token> {
    [Open("a", [Attr("href", "#" + TocId(k))])] + content + [Close("a")]
  }

  function LastLevel(es: seq<Entry>): nat { if es == [] then 0 else es[|es| - 1].level }

  /** The markup for the headings so far. */
  function TocBody(es: seq<Entry>): seq<Token> {
    if es == [] then []
    else
      var n := |es| - 1;
      TocBody(es[..n]) + TocStep(LastLevel(es[..n]), es[n].level) + Anchor(n, es[n].content)
  }

  /** The whole markup, with the lists closed. */
  function Toc(es: seq<Entry>): seq<Token> {
    TocBody(es) + Times(LastLevel(es), CloseList)
  }

  /** Heading contents are well nested by themselves. */
  ghost predicate Neutral(ts: seq<Token>) {
    forall stack {:trigger Run(stack, ts)} :: Free(stack) ==> Run(stack, ts) == Some(stack)
  }

  ghost predicate ContentsNeutral(es: seq<Entry>) {
    forall k :: 0 <= k < |es| ==> Neutral(es[k].content)
  }

  lemma {:induction false} Opening(cur: nat, n: nat)
    ensures Run(Nest(cur), Times(n, OpenList)) == Some(Nest(cur + n))
  {
    if n > 0 {
      Opening(cur, n - 1);
      RunTwo(Nest(cur), Times(n - 1, OpenList), OpenList, Nest(cur + n - 1));
      ListOpens(cur + n - 1);
    }
  }

  lemma NestFree(n: nat)
    ensures Free(Nest(n)) && (n > 0 ==> Nest(n)[|Nest(n)| - 1] == "li")
    ensures n > 0 ==> Nest(n)[..|Nest(n)| - 1] == Nest(n - 1) + ["ul"]
  {
  }

  lemma ListOpens(n: nat)
    ensures Run(Nest(n), OpenList) == Some(Nest(n + 1))
  {
    NestFree(n);
    var s := Nest(n) + ["ul"];
    assert OpenList[1..] == [Open("li", [])];
    assert s + ["li"] == Nest(n + 1);
    RunOne(s, Open("li", []));
  }

  lemma ListCloses(n: nat)
    requires n > 0
    ensures Run(Nest(n), CloseList) == Some(Nest(n - 1))
  {
    NestFree(n);
    assert CloseList[1..] == [Close("ul")];
    assert (Nest(n - 1) + ["ul"])[..|Nest(n - 1)|] == Nest(n - 1);
    RunOne(Nest(n - 1) + ["ul"], Close("ul"));
  }

  lemma {:induction false} Closing(cur: nat, n: nat)
    requires n <= cur
    ensures Run(Nest(cur), Times(n, CloseList)) == Some(Nest(cur - n))
  {
    if n > 0 {
      Closing(cur, n - 1);
      RunTwo(Nest(cur), Times(n - 1, CloseList), CloseList, Nest(cur - n + 1));
      ListCloses(cur - n + 1);
    }
  }

  /** The next item keeps the depth, unless there is no list to hold it. */
  lemma ItemNext(n: nat)
    ensures Run(Nest(n), NextItem) == if n > 0 then Some(Nest(n)) else None
  {
    if n > 0 {
      NestFree(n);
      assert NextItem[1..] == [Open("li", [])];
      assert (Nest(n - 1) + ["ul"]) + ["li"] == Nest(n);
      RunOne(Nest(n - 1) + ["ul"], Open("li", []));
    }
  }

  lemma StepDepth(cur: nat, level: nat)
    ensures Run(Nest(cur), TocStep(cur, level)) == if level > 0 then Some(Nest(level)) else None
  {
    if level == cur {
      ItemNext(cur);
    } else if level < cur {
      Closing(cur, cur - level);
      RunTwo(Nest(cur), Times(cur - level, CloseList), NextItem, Nest(level));
      ItemNext(level);
    } else {
      Opening(cur, level - cur);
    }
  }

  lemma AnchorNeutral(stack: seq<bytes>, k: nat, content: seq<Token>)
    requires Free(stack) && Neutral(content)
    ensures Run(stack, Anchor(k, content)) == Some(stack)
  {
    var open, close := [Open("a", [Attr("href", "#" + TocId(k))])], [Close("a")];
    var s := stack + ["a"];
    RunOne(stack, open[0]);
    RunTwo(stack, open, content, s);
    RunTwo(stack, open + content, close, s);
    RunOne(s, close[0]);
    assert s[..|stack|] == stack;
  }

  predicate LevelsPositive(es: seq<Entry>) {
    forall k :: 0 <= k < |es| ==> es[k].level >= 1
  }

  /** After the headings so far exactly `LastLevel` lists are open, or nothing makes
      sense any more because some heading had level 0. */
  lemma {:induction false} BodyDepth(es: seq<Entry>)
    requires ContentsNeutral(es)
    ensures Run([], TocBody(es)) == if LevelsPositive(es) then Some(Nest(LastLevel(es))) else None
  {
    assert Run([], []) == Some([]);
    hide Run, TocStep, Anchor, Neutral, Nest;
    if es != [] {
      var n := |es| - 1;
      var before, level := es[..n], es[n].level;
      BodyDepth(before);
      assert LevelsPositive(es) <==> LevelsPositive(before) && level >= 1;
      var step, anchor := TocStep(LastLevel(before), level), Anchor(n, es[n].content);
      RunConcat([], TocBody(before), step);
      RunConcat([], TocBody(before) + step, anchor);
      if LevelsPositive(before) {
        StepDepth(LastLevel(before), level);
        NestFree(level);
        if level > 0 { AnchorNeutral(Nest(level), n, es[n].content); }
      }
    }
  }

  /** Every anchor stands inside exactly as many lists as its heading's level. */
  lemma AnchorDepth(es: seq<Entry>, k: nat)
    requires ContentsNeutral(es) && LevelsPositive(es) && k < |es|
    ensures Run([], TocBody(es[..k]) + TocStep(LastLevel(es[..k]), es[k].level)) == Some(Nest(es[k].level))
    ensures TocBody(es[..k + 1]) == TocBody(es[..k]) + TocStep(LastLevel(es[..k]), es[k].level) + Anchor(k,
            es[k].content)
  {
    BodyDepth(es[..k]);
    StepDepth(LastLevel(es[..k]), es[k].level);
    RunTwo([], TocBody(es[..k]), TocStep(LastLevel(es[..k]), es[k].level), Nest(LastLevel(es[..k])));
    assert es[..k + 1][..k] == es[..k];
  }

  /** The table of contents is well nested exactly when no heading has level 0. */
  lemma TocBalanced(es: seq<Entry>)
    requires ContentsNeutral(es)
    ensures Run([], Toc(es)) == Some([]) <==> LevelsPositive(es)
  {
    BodyDepth(es);
    RunConcat([], TocBody(es), Times(LastLevel(es), CloseList));
    Closing(LastLevel(es), LastLevel(es));
  }
}
