/** Smart punctuation (src/smartypants.rs): a byte scanner with a handler per byte
    value and two flags that remember open quotes. */
module Smartypants {
  import opened Bytes
  import Esc

  datatype Flags = Flags(angledQuotes: bool, nbsp: bool, dashes: bool, latexDashes: bool, fractions: bool)

  datatype Action = DoubleQuote(mark: byte) | Amp(mark: byte, addNbsp: bool) | SingleQuote | Parens | Dash | DashLatex
                  | Period | Number | NumberGeneric | LeftAngle | Backtick

  /** The handler the flags select for a byte value. */
  function ActionFor(f: Flags, c: byte): Option<Action> {
    var mark := if f.angledQuotes then 'a' else 'd';
    match c
    case '\"' => Some(DoubleQuote(mark))
    case '&' => Some(Amp(mark, f.nbsp))
    case '\'' => Some(SingleQuote)
    case '(' => Some(Parens)
    case '-' => if f.dashes then Some(if f.latexDashes then DashLatex else Dash) else None
    case '.' => Some(Period)
    case '<' => Some(LeftAngle)
    case '`' => Some(Backtick)
    case _ =>
      if f.fractions then (if '1' <= c <= '9' then Some(NumberGeneric) else None)
      else if c == '1' || c == '3' then Some(Number)
      else None
  }

  const Nul: byte := 0 as char

  predicate WordBoundary(c: byte) { c == Nul || IsSpace(c) || IsPunct(c) }

  // ----- what a handler may write -----

  /** The replacement for one stretch of input. */
  datatype Piece =
    | Copy(text: bytes)
    | Entity(name: bytes)
    | Quote(open: bool, mark: byte, nbsp: bool)
    | Fraction(num: bytes, den: bytes)
    | Nothing

  /** A stretch of input with its replacement. */
  datatype Token = Token(taken: bytes, piece: Piece)

  function Pad(nbsp: bool): bytes { if nbsp then "&nbsp;" else "" }

  function Curly(open: bool, mark: byte): bytes { ['&', if open then 'l' else 'r', mark, 'q', 'u', 'o', ';'] }

  function Spell(p: Piece): bytes {
    match p
    case Copy(s) => s
    case Entity(name) => name
    case Quote(open, mark, nbsp) =>
      Pad(nbsp && !open) + Curly(open, mark) + Pad(nbsp && open)
    case Fraction(num, den) => "<sup>" + num + "</sup>&frasl;<sub>" + den + "</sub>"
    case Nothing => ""
  }

  const FractionSlash: bytes := [0xe2 as char, 0x81 as char, 0x84 as char]

  predicate AllDigits(s: bytes) {
    s != [] && forall k :: 0 <= k < |s| ==> IsDigit(s[k])
  }

  function LowerAll(s: bytes): bytes {
    seq(|s|, k requires 0 <= k < |s| => ToLower(s[k]))
  }

  /** Which inputs each entity stands for. */
  predicate StandsFor(name: bytes, taken: bytes) {
    match name
    case "&rsquo;" => taken == "'"
    case "&copy;" => LowerAll(taken) == "(c)"
    case "&reg;" => LowerAll(taken) == "(r)"
    case "&trade;" => LowerAll(taken) == "(tm)"
    case "&mdash;" => taken == "--" || taken == "---"
    case "&ndash;" => taken == "-" || taken == "--"
    case "&hellip;" => taken == "..." || taken == ". . ."
    case "&frac12;" => taken == "1/2"
    case "&frac14;" => taken == "1/4"
    case "&frac34;" => taken == "3/4"
    case _ => false
  }

  /** A replacement is a verbatim copy, or stands for exactly the input it replaces. */
  predicate Justified(t: Token) {
    match t.piece
    case Copy(s) => s == t.taken
    case Entity(name) => StandsFor(name, t.taken)
    case Quote(_, mark, _) =>
      (mark == 'd' || mark == 'a' || mark == 's') &&
      (t.taken == "\"" || t.taken == "'" || t.taken == "''" || t.taken == "``" || t.taken == "&quot;")
    case Fraction(num, den) =>
      AllDigits(num) && AllDigits(den)
      && (t.taken == num + "/" + den || t.taken == num + FractionSlash + den)
    case Nothing => t.taken == "&#0;"
  }

  function Taken(ts: seq<Token>): bytes {
    if ts == [] then "" else Taken(ts[..|ts| - 1]) + ts[|ts| - 1].taken
  }

  function Written(ts: seq<Token>): bytes {
    if ts == [] then "" else Written(ts[..|ts| - 1]) + Spell(ts[|ts| - 1].piece)
  }

  // ----- quotes -----

  /** Whether a quote between `prev` and `next` opens, given whether one is open.
      `Nul` stands for a missing neighbour. */
  function Opens(prev: byte, next: byte, open: bool): bool {
    if prev == Nul && next == Nul then !open
    else if IsSpace(prev) && next == Nul then true
    else if IsPunct(prev) && next == Nul then false
    else if next == Nul then false
    else if prev == Nul && IsSpace(next) then false
    else if IsSpace(prev) && IsSpace(next) then !open
    else if IsPunct(prev) && IsSpace(next) then false
    else if IsSpace(next) then false
    else if prev == Nul && IsPunct(next) then false
    else if IsSpace(prev) && IsPunct(next) then true
    else if IsPunct(prev) && IsPunct(next) then !open
    else if IsPunct(next) then false
    else if prev == Nul then true
    else if IsSpace(prev) then true
    else if IsPunct(prev) then true
    else false
  }

  datatype Class = Edge | Space | Punct | Other

  function ClassOf(c: byte): Class {
    if c == Nul then Edge else if IsSpace(c) then Space else if IsPunct(c) then Punct else Other
  }

  /** The remembered state decides exactly when both neighbours are of one class and
      that class is not ordinary text; then the quote toggles. */
  lemma StateDecides(prev: byte, next: byte)
    ensures Opens(prev, next, true) != Opens(prev, next, false) <==> ClassOf(prev) == ClassOf(next) != Other
    ensures ClassOf(prev) == ClassOf(next) != Other ==> forall o :: Opens(prev, next, o) == !o
    ensures ClassOf(prev) != ClassOf(next) || ClassOf(prev) == Other ==>
              forall o :: Opens(prev, next, o) == (match ClassOf(next)
                                                    case Edge => ClassOf(prev) == Space
                                                    case Space => false
                                                    case Punct => ClassOf(prev) == Space
                                                    case Other => ClassOf(prev) != Other)
  {
    assert !IsSpace(Nul) && !IsPunct(Nul);
    hide IsSpace, IsPunct;
  }

  /** The state after a run is the direction of the last quote of that kind. */
  function LastQuote(ts: seq<Token>, single: bool, open: bool): bool {
    if ts == [] then open
    else
      var p := ts[|ts| - 1].piece;
      if p.Quote? && (p.mark == 's') == single then p.open else LastQuote(ts[..|ts| - 1], single, open)
  }

  // ----- handlers without state -----

  function Min(a: nat, b: nat): nat { if a < b then a else b }

  /** The bytes a handler takes: the one it was called for and `extra` more. */
  function Head(text: bytes, extra: nat): bytes { text[..Min(extra + 1, |text|)] }

  function CopyOf(s: bytes): (t: Token)
    ensures Spell(t.piece) == s && Justified(t) && !t.piece.Quote?
  {
    Token(s, Copy(s))
  }

  predicate Fits(a: Action, c: byte) {
    match a
    case DoubleQuote(mark) => c == '\"' && (mark == 'd' || mark == 'a')
    case Amp(mark, _) => c == '&' && (mark == 'd' || mark == 'a')
    case SingleQuote => c == '\''
    case Parens => c == '('
    case Dash => c == '-'
    case DashLatex => c == '-'
    case Period => c == '.'
    case LeftAngle => c == '<'
    case Backtick => c == '`'
    case _ => IsDigit(c)
  }

  // ----- what each handler decides -----

  /** The bytes taken after the first, and the replacement. */
  datatype Reply = Reply(extra: nat, piece: Piece)

  function Keep(text: bytes): Reply
    requires text != []
  {
    Reply(0, Copy(text[..1]))
  }

  /** The byte `k` of the text, or `Nul`. */
  function NextTo(text: bytes, k: nat): byte { if k < |text| then text[k] else Nul }

  /** The lower-cased byte `k` is `c`. */
  predicate Is(text: bytes, k: nat, c: byte) { k < |text| && ToLower(text[k]) == c }

  /** The text ends at `k`, or a word does. */
  predicate EndsWord(text: bytes, k: nat) { |text| <= k || WordBoundary(text[k]) }

  function ParensSay(text: bytes): Reply
    requires text != []
  {
    if Is(text, 1, 'c') && Is(text, 2, ')') then Reply(2, Entity("&copy;"))
    else if Is(text, 1, 'r') && Is(text, 2, ')') then Reply(2, Entity("&reg;"))
    else if Is(text, 1, 't') && Is(text, 2, 'm') && Is(text, 3, ')') then Reply(3, Entity("&trade;"))
    else Keep(text)
  }

  function DashSays(prev: byte, text: bytes): Reply
    requires text != []
  {
    if StartsWith(text[1..], "-") then Reply(1, Entity("&mdash;"))
    else if |text| >= 2 && WordBoundary(prev) && WordBoundary(text[1]) then Reply(0, Entity("&ndash;"))
    else Keep(text)
  }

  function DashLatexSays(text: bytes): Reply
    requires text != []
  {
    if StartsWith(text[1..], "--") then Reply(2, Entity("&mdash;"))
    else if StartsWith(text[1..], "-") then Reply(1, Entity("&ndash;"))
    else Keep(text)
  }

  function PeriodSays(text: bytes): Reply
    requires text != []
  {
    if StartsWith(text[1..], "..") then Reply(2, Entity("&hellip;"))
    else if StartsWith(text[1..], " . .") then Reply(4, Entity("&hellip;"))
    else Keep(text)
  }

  /** A fraction may start after the end of a word other than a slash. */
  predicate MayStart(prev: byte, text: bytes) { WordBoundary(prev) && prev != '/' && |text| >= 3 }

  /** It may end where a word does, but not before a slash. */
  predicate MayEnd(text: bytes, k: nat) { |text| <= k || (WordBoundary(text[k]) && text[k] != '/') }

  function NumberSays(prev: byte, text: bytes): Reply
    requires text != []
  {
    if !MayStart(prev, text) then Keep(text)
    else if StartsWith(text, "1/2") && MayEnd(text, 3) then Reply(2, Entity("&frac12;"))
    else if StartsWith(text, "1/4") && (MayEnd(text, 3) || (Is(text, 3, 't') && Is(text, 4, 'h'))) then
      Reply(2, Entity("&frac14;"))
    else if StartsWith(text, "3/4")
            && (MayEnd(text, 3) || (Is(text, 3, 't') && Is(text, 4, 'h') && Is(text, 5, 's'))) then
      Reply(2, Entity("&frac34;"))
    else Keep(text)
  }

  function Digit(): byte -> bool { c => IsDigit(c) }

  /** Where the denominator starts: past a slash, or past U+2044; none if neither is there. */
  function DenStart(text: bytes, numEnd: nat): Option<nat>
    requires numEnd <= |text|
  {
    if |text| > numEnd + 3 && StartsWith(text[numEnd..], FractionSlash) then Some(numEnd + 3)
    else if |text| >= numEnd + 2 && text[numEnd] == '/' then Some(numEnd + 1)
    else None
  }

  /** Digits, a slash, digits. */
  function FractionSays(prev: byte, text: bytes): Reply
    requires text != []
  {
    var num := Skip(text, 0, Digit());
    if !MayStart(prev, text) || num == 0 then Keep(text)
    else
      match DenStart(text, num)
      case None => Keep(text)
      case Some(den) =>
        var end := Skip(text, den, Digit());
        if end == den || !MayEnd(text, end) then Keep(text)
        else Reply(end - 1, Fraction(text[..num], text[den..end]))
  }

  function AngleSays(text: bytes): Reply {
    var n := Skip(text, 0, NotAngle());
    Reply(n, Copy(Head(text, n)))
  }

  /** Contractions, then quotes. */
  function SingleSays(prev: byte, text: bytes, s: bool, d: bool): Reply
    requires text != []
  {
    if Is(text, 1, '\'') then Reply(1, Quote(Opens(prev, NextTo(text, 2), d), 'd', false))
    else if (Is(text, 1, 's') || Is(text, 1, 't') || Is(text, 1, 'm') || Is(text, 1, 'd')) && EndsWord(text, 2) then
      Reply(0, Entity("&rsquo;"))
    else if ((Is(text, 1, 'r') && Is(text, 2, 'e')) || (Is(text, 1, 'l') && Is(text, 2, 'l'))
             || (Is(text, 1, 'v') && Is(text, 2, 'e'))) && EndsWord(text, 3) then
      Reply(0, Entity("&rsquo;"))
    else Reply(0, Quote(Opens(prev, NextTo(text, 1), s), 's', false))
  }

  function AmpSays(prev: byte, text: bytes, d: bool, mark: byte, nbsp: bool): Reply {
    if StartsWith(text, "&quot;") then Reply(5, Quote(Opens(prev, NextTo(text, 6), d), mark, nbsp))
    else if StartsWith(text, "&#0;") then Reply(3, Nothing)
    else Reply(0, Copy("&"))
  }

  function BacktickSays(prev: byte, text: bytes, d: bool): Reply
    requires text != []
  {
    if StartsWith(text[1..], "`") then Reply(1, Quote(Opens(prev, NextTo(text, 2), d), 'd', false)) else Keep(text)
  }

  /** What is written for the byte that starts `text`, and what it takes with it, after
      `prev` and with the open quotes `s` and `d`. */
  function Says(a: Action, prev: byte, text: bytes, s: bool, d: bool): Reply
    requires text != []
  {
    match a
    case DoubleQuote(mark) => Reply(0, Quote(Opens(prev, NextTo(text, 1), d), mark, false))
    case Amp(mark, addNbsp) => AmpSays(prev, text, d, mark, addNbsp)
    case SingleQuote => SingleSays(prev, text, s, d)
    case Parens => ParensSay(text)
    case Dash => DashSays(prev, text)
    case DashLatex => DashLatexSays(text)
    case Period => PeriodSays(text)
    case Number => NumberSays(prev, text)
    case NumberGeneric => FractionSays(prev, text)
    case LeftAngle => AngleSays(text)
    case Backtick => BacktickSays(prev, text, d)
  }

  /** The open quotes after a piece. */
  function SingleAfter(p: Piece, s: bool): bool { if p.Quote? && p.mark == 's' then p.open else s }

  function DoubleAfter(p: Piece, d: bool): bool { if p.Quote? && p.mark != 's' then p.open else d }

  /** The rewriting of `text` from `i` on: every byte that has a handler under these flags
      is replaced as the handler says, every other one is copied. */
  function Smart(f: Flags, text: bytes, i: nat, s: bool, d: bool): bytes
    decreases |text| - i
  {
    if i >= |text| then ""
    else
      match ActionFor(f, text[i])
      case None => [text[i]] + Smart(f, text, i + 1, s, d)
      case Some(a) =>
        var r := Says(a, if i > 0 then text[i - 1] else Nul, text[i..], s, d);
        Spell(r.piece) + Smart(f, text, i + r.extra + 1, SingleAfter(r.piece, s), DoubleAfter(r.piece, d))
  }

  method SmartParens(text: bytes) returns (extra: nat, piece: Piece)
    requires text != [] && text[0] == '('
    ensures extra < |text| && !piece.Quote? && Justified(Token(Head(text, extra), piece))
    ensures Reply(extra, piece) == ParensSay(text)
  {
    if |text| >= 3 {
      var t1, t2 := ToLower(text[1]), ToLower(text[2]);
      if t1 == 'c' && t2 == ')' {
        assert LowerAll(Head(text, 2)) == "(c)";
        return 2, Entity("&copy;");
      }
      if t1 == 'r' && t2 == ')' {
        assert LowerAll(Head(text, 2)) == "(r)";
        return 2, Entity("&reg;");
      }
      if |text| >= 4 && t1 == 't' && t2 == 'm' && text[3] == ')' {
        assert LowerAll(Head(text, 3)) == "(tm)";
        return 3, Entity("&trade;");
      }
    }
    return 0, Copy(text[..1]);
  }

  method SmartDash(prev: byte, text: bytes) returns (extra: nat, piece: Piece)
    requires text != [] && text[0] == '-'
    ensures extra < |text| && !piece.Quote? && Justified(Token(Head(text, extra), piece))
    ensures Reply(extra, piece) == DashSays(prev, text)
  {
    if |text| >= 2 {
      if text[1] == '-' {
        assert Head(text, 1) == "--";
        return 1, Entity("&mdash;");
      }
      if WordBoundary(prev) && WordBoundary(text[1]) {
        assert Head(text, 0) == "-";
        return 0, Entity("&ndash;");
      }
    }
    return 0, Copy(text[..1]);
  }

  method SmartDashLatex(text: bytes) returns (extra: nat, piece: Piece)
    requires text != [] && text[0] == '-'
    ensures extra < |text| && !piece.Quote? && Justified(Token(Head(text, extra), piece))
    ensures Reply(extra, piece) == DashLatexSays(text)
  {
    if |text| >= 3 && text[1] == '-' && text[2] == '-' {
      assert Head(text, 2) == "---";
      return 2, Entity("&mdash;");
    }
    if |text| >= 2 && text[1] == '-' {
      assert Head(text, 1) == "--";
      return 1, Entity("&ndash;");
    }
    return 0, Copy(text[..1]);
  }

  method SmartPeriod(text: bytes) returns (extra: nat, piece: Piece)
    requires text != [] && text[0] == '.'
    ensures extra < |text| && !piece.Quote? && Justified(Token(Head(text, extra), piece))
    ensures Reply(extra, piece) == PeriodSays(text)
  {
    if |text| >= 3 && text[1] == '.' && text[2] == '.' {
      assert Head(text, 2) == "...";
      return 2, Entity("&hellip;");
    }
    if |text| >= 5 && text[1] == ' ' && text[2] == '.' && text[3] == ' ' && text[4] == '.' {
      assert Head(text, 4) == ". . .";
      return 4, Entity("&hellip;");
    }
    return 0, Copy(text[..1]);
  }

  /** `1/2`, `1/4` and `3/4`; the last two also as ordinals. */
  method SmartNumber(prev: byte, text: bytes) returns (extra: nat, piece: Piece)
    requires text != []
    ensures extra < |text| && !piece.Quote? && Justified(Token(Head(text, extra), piece))
    ensures Reply(extra, piece) == NumberSays(prev, text)
  {
    if WordBoundary(prev) && prev != '/' && |text| >= 3 {
      var ends := |text| < 4 || (WordBoundary(text[3]) && text[3] != '/');
      if text[0] == '1' && text[1] == '/' && text[2] == '2' && ends {
        assert Head(text, 2) == "1/2";
        return 2, Entity("&frac12;");
      }
      if text[0] == '1' && text[1] == '/' && text[2] == '4'
         && (ends || (|text| >= 5 && ToLower(text[3]) == 't' && ToLower(text[4]) == 'h')) {
        assert Head(text, 2) == "1/4";
        return 2, Entity("&frac14;");
      }
      if text[0] == '3' && text[1] == '/' && text[2] == '4'
         && (ends || (|text| >= 6 && ToLower(text[3]) == 't' && ToLower(text[4]) == 'h' && ToLower(text[5]) == 's')) {
        assert Head(text, 2) == "3/4";
        return 2, Entity("&frac34;");
      }
    }
    return 0, Copy(text[..1]);
  }

  method Digits(text: bytes, from: nat) returns (end: nat)
    requires from <= |text|
    ensures from <= end <= |text| && (end > from ==> AllDigits(text[from..end]))
    ensures end == Skip(text, from, Digit())
  {
    end := from;
    while end < |text| && IsDigit(text[end])
      invariant from <= end <= |text| && forall k :: from <= k < end ==> Digit()(text[k])
    {
      end := end + 1;
    }
    SkipUnique(text, from, Digit(), end);
  }

  /** Any fraction; the denominator may follow `/` or U+2044. */
  method SmartNumberGeneric(prev: byte, text: bytes) returns (extra: nat, piece: Piece)
    requires text != []
    ensures extra < |text| && !piece.Quote? && Justified(Token(Head(text, extra), piece))
    ensures Reply(extra, piece) == FractionSays(prev, text)
  {
    hide Skip, AllDigits, Justified, Head;
    KeepIsJustified(text);
    if WordBoundary(prev) && prev != '/' && |text| >= 3 {
      var numEnd := Digits(text, 0);
      if numEnd == 0 { return 0, Copy(text[..1]); }
      var denStart := numEnd + 1;
      if |text| > numEnd + 3 && text[numEnd..numEnd + 3] == FractionSlash {
        assert text[numEnd..][..3] == text[numEnd..numEnd + 3];
        denStart := numEnd + 3;
      } else {
        if |text| > numEnd + 3 { assert text[numEnd..][..3] == text[numEnd..numEnd + 3]; }
        if |text| < numEnd + 2 || text[numEnd] != '/' { return 0, Copy(text[..1]); }
      }
      var denEnd := Digits(text, denStart);
      if denEnd == denStart { return 0, Copy(text[..1]); }
      if |text| == denEnd || (WordBoundary(text[denEnd]) && text[denEnd] != '/') {
        FractionIsJustified(text, numEnd, denStart, denEnd);
        return denEnd - 1, Fraction(text[..numEnd], text[denStart..denEnd]);
      }
    }
    return 0, Copy(text[..1]);
  }

  lemma KeepIsJustified(text: bytes)
    requires text != []
    ensures Justified(Token(Head(text, 0), Copy(text[..1])))
  {
  }

  lemma FractionIsJustified(text: bytes, numEnd: nat, denStart: nat, denEnd: nat)
    requires 0 < numEnd < denStart < denEnd <= |text| && AllDigits(text[0..numEnd]) && AllDigits(text[denStart..denEnd])
    requires (denStart == numEnd + 1 && text[numEnd] == '/')
             || (denStart == numEnd + 3 && text[numEnd..numEnd + 3] == FractionSlash)
    ensures Justified(Token(Head(text, denEnd - 1), Fraction(text[..numEnd], text[denStart..denEnd])))
  {
    FractionText(text, numEnd, denStart, denEnd);
  }

  lemma FractionText(text: bytes, numEnd: nat, denStart: nat, denEnd: nat)
    requires numEnd < denStart < denEnd <= |text|
    ensures Head(text, denEnd - 1) == text[..numEnd] + text[numEnd..denStart] + text[denStart..denEnd]
    ensures denStart == numEnd + 1 ==> text[numEnd..denStart] == [text[numEnd]]
    ensures text[..numEnd] == text[0..numEnd]
  {
    assert text[..numEnd] + text[numEnd..denStart] == text[..denStart];
    assert text[..denStart] + text[denStart..denEnd] == text[..denEnd];
  }

  /** A tag, copied through; without a `>` the rest of the text is. */
  method SmartLeftAngle(text: bytes) returns (extra: nat, piece: Piece)
    requires text != []
    ensures extra <= |text| && piece == Copy(Head(text, extra))
    ensures extra == Skip(text, 0, NotAngle()) && Reply(extra, piece) == AngleSays(text)
  {
    extra := 0;
    while extra < |text| && text[extra] != '>'
      invariant extra <= |text| && Skip(text, extra, NotAngle()) == Skip(text, 0, NotAngle())
    {
      extra := extra + 1;
    }
    piece := Copy(text[..Min(|text|, extra + 1)]);
  }

  function NotAngle(): byte -> bool { c => c != '>' }

  // ----- the scanner -----

  /** Appending one token. */
  lemma AddToken(ts: seq<Token>, text: bytes, a: nat, b: nat, t: Token, out: bytes, out': bytes)
    requires a <= b <= |text| && Taken(ts) == text[..a] && t.taken == text[a..b] && out' == out + Written(ts)
    ensures Taken(ts + [t]) == text[..b]
    ensures out' + Spell(t.piece) == out + Written(ts + [t])
    ensures forall single, open :: LastQuote(ts + [t], single, open)
              == if t.piece.Quote? && (t.piece.mark == 's') == single then t.piece.open else LastQuote(ts, single, open)
  {
    assert (ts + [t])[..|ts|] == ts;
    assert text[..a] + text[a..b] == text[..b];
    ConcatAssoc(out, Written(ts), Spell(t.piece));
  }

  lemma NoTokens(out: bytes)
    ensures Taken([]) == "" && out == out + Written([])
    ensures forall single, open :: LastQuote([], single, open) == open
  {
  }

  lemma ActionFits(f: Flags, c: byte)
    ensures ActionFor(f, c).Some? ==> Fits(ActionFor(f, c).value, c)
  {
  }

  lemma HeadIsSlice(text: bytes, i: nat, extra: nat)
    requires i < |text|
    ensures Head(text[i..], extra) == text[i..Min(i + extra + 1, |text|)]
  {
  }

  /** What is still to come after `out`: the bytes from `mark` to `i` as they are, and the
      rewriting from `i` on. */
  ghost predicate Pending(f: Flags, text: bytes, mark: nat, i: nat, s: bool, d: bool, out: bytes, whole: bytes) {
    out + (if mark <= i <= |text| then text[mark..i] else "") + Smart(f, text, i, s, d) == whole
  }

  lemma NothingPending(f: Flags, text: bytes, s: bool, d: bool, out: bytes)
    ensures Pending(f, text, 0, 0, s, d, out, out + Smart(f, text, 0, s, d))
  {
    hide Smart;
    assert text[0..0] == "" && out + "" == out;
  }

  lemma Copied(f: Flags, text: bytes, mark: nat, i: nat, s: bool, d: bool, out: bytes, whole: bytes)
    requires Pending(f, text, mark, i, s, d, out, whole) && mark <= i < |text| && ActionFor(f, text[i]) == None
    ensures Pending(f, text, mark, i + 1, s, d, out, whole)
  {
    SmartCopies(f, text, i, s, d);
    hide Smart, ActionFor;
    assert text[mark..i + 1] == text[mark..i] + [text[i]];
    ConcatAssoc(out, text[mark..i], [text[i]]);
    ConcatAssoc(out + text[mark..i], [text[i]], Smart(f, text, i + 1, s, d));
  }

  lemma SmartCopies(f: Flags, text: bytes, i: nat, s: bool, d: bool)
    requires i < |text| && ActionFor(f, text[i]) == None
    ensures Smart(f, text, i, s, d) == [text[i]] + Smart(f, text, i + 1, s, d)
  {
  }

  lemma Replaced(f: Flags, text: bytes, mark: nat, i: nat, s: bool, d: bool, out: bytes, whole: bytes, r: Reply)
    requires Pending(f, text, mark, i, s, d, out, whole) && mark <= i < |text| && ActionFor(f, text[i]).Some?
    requires r == Says(ActionFor(f, text[i]).value, if i > 0 then text[i - 1] else Nul, text[i..], s, d)
    ensures Pending(f, text, i + r.extra + 1, i + r.extra + 1, SingleAfter(r.piece, s), DoubleAfter(r.piece, d),
                    (if i > mark then out + text[mark..i] else out) + Spell(r.piece), whole)
  {
    hide Says, Spell, ActionFor, SingleAfter, DoubleAfter;
    var n := i + r.extra + 1;
    var rest := Smart(f, text, n, SingleAfter(r.piece, s), DoubleAfter(r.piece, d));
    assert Smart(f, text, i, s, d) == Spell(r.piece) + rest;
    hide Smart;
    assert i == mark ==> text[mark..i] == "";
    var before := out + text[mark..i];
    ConcatAssoc(before, Spell(r.piece), rest);
    assert n <= |text| ==> text[n..n] == "";
    assert (before + Spell(r.piece)) + "" == before + Spell(r.piece);
    assert i == mark ==> out + "" == out;
  }

  lemma NothingLeft(f: Flags, text: bytes, mark: nat, i: nat, s: bool, d: bool, out: bytes, whole: bytes)
    requires Pending(f, text, mark, i, s, d, out, whole) && mark <= i && i >= |text| && (i > |text| ==> mark == i)
    ensures (if mark < |text| then out + text[mark..] else out) == whole
  {
    if mark <= |text| && i == |text| { assert text[mark..i] == text[mark..]; }
  }

  /** What there was when a run began. */
  datatype Start = Start(out: bytes, s: bool, d: bool)

  /** A run that has come to `i`, having written everything before `mark`. */
  ghost predicate Processed(f: Flags, text: bytes, start: Start, mark: nat, i: nat, s: bool, d: bool, out: bytes,
                            ts: seq<Token>)
  {
    && mark <= i && (i > |text| ==> mark == i) && mark <= |text| + 1
    && Taken(ts) == text[..Min(mark, |text|)] && out == start.out + Written(ts)
    && (forall k :: 0 <= k < |ts| ==> Justified(ts[k]))
    && d == LastQuote(ts, false, start.d) && s == LastQuote(ts, true, start.s)
    && Pending(f, text, mark, i, s, d, out, start.out + Smart(f, text, 0, start.s, start.d))
  }

  lemma ProcessStarts(f: Flags, text: bytes, start: Start)
    ensures Processed(f, text, start, 0, 0, start.s, start.d, start.out, [])
  {
    NoTokens(start.out);
    NothingPending(f, text, start.s, start.d, start.out);
    hide Smart, Pending;
  }

  lemma ProcessedFits(f: Flags, text: bytes, start: Start, mark: nat, i: nat, s: bool, d: bool, out: bytes,
                      ts: seq<Token>)
    requires Processed(f, text, start, mark, i, s, d, out, ts)
    ensures mark <= i && (i > |text| ==> mark == i)
  {
  }

  lemma ProcessedPast(f: Flags, text: bytes, start: Start, mark: nat, i: nat, s: bool, d: bool, out: bytes,
                      ts: seq<Token>)
    requires Processed(f, text, start, mark, i, s, d, out, ts) && i < |text| && ActionFor(f, text[i]) == None
    ensures Processed(f, text, start, mark, i + 1, s, d, out, ts)
  {
    hide Smart, Pending, Taken, Written, LastQuote, Justified, ActionFor;
    Copied(f, text, mark, i, s, d, out, start.out + Smart(f, text, 0, start.s, start.d));
  }

  /** The tokens with the run before `i`, if any, and the handled bytes. */
  function More(ts: seq<Token>, text: bytes, mark: nat, i: nat, r: Reply): seq<Token>
    requires mark <= i < |text|
  {
    (if i > mark then ts + [CopyOf(text[mark..i])] else ts) + [Token(Head(text[i..], r.extra), r.piece)]
  }

  lemma ProcessedOn(f: Flags, text: bytes, start: Start, mark: nat, i: nat, s: bool, d: bool, out: bytes,
                    ts: seq<Token>, r: Reply)
    requires Processed(f, text, start, mark, i, s, d, out, ts) && i < |text| && ActionFor(f, text[i]).Some?
    requires r == Says(ActionFor(f, text[i]).value, if i > 0 then text[i - 1] else Nul, text[i..], s, d)
    requires r.extra <= |text| - i && Justified(Token(Head(text[i..], r.extra), r.piece))
    ensures var n := i + r.extra + 1;
            Processed(f, text, start, n, n, SingleAfter(r.piece, s), DoubleAfter(r.piece, d),
                      (if i > mark then out + text[mark..i] else out) + Spell(r.piece), More(ts, text, mark, i, r))
  {
    hide Smart, Pending, Taken, Written, LastQuote, Spell, Justified, Says, ActionFor, Head;
    var whole := start.out + Smart(f, text, 0, start.s, start.d);
    Replaced(f, text, mark, i, s, d, out, whole, r);
    var ts', out' := ts, out;
    if i > mark {
      AddToken(ts, text, mark, i, CopyOf(text[mark..i]), start.out, out);
      ts', out' := ts + [CopyOf(text[mark..i])], out + text[mark..i];
    }
    HeadIsSlice(text, i, r.extra);
    AddToken(ts', text, i, Min(i + r.extra + 1, |text|), Token(Head(text[i..], r.extra), r.piece), start.out, out');
  }

  lemma ProcessEnds(f: Flags, text: bytes, start: Start, mark: nat, i: nat, s: bool, d: bool, out: bytes,
                    ts: seq<Token>)
    requires Processed(f, text, start, mark, i, s, d, out, ts) && i >= |text|
    ensures var out' := if mark < |text| then out + text[mark..] else out;
            var ts' := if mark < |text| then ts + [CopyOf(text[mark..])] else ts;
            && out' == start.out + Smart(f, text, 0, start.s, start.d)
            && Taken(ts') == text && out' == start.out + Written(ts')
            && (forall k :: 0 <= k < |ts'| ==> Justified(ts'[k]))
            && d == LastQuote(ts', false, start.d) && s == LastQuote(ts', true, start.s)
  {
    hide Smart, Pending, Taken, Written, LastQuote, Justified;
    NothingLeft(f, text, mark, i, s, d, out, start.out + Smart(f, text, 0, start.s, start.d));
    assert text[..|text|] == text;
    if mark < |text| {
      assert text[mark..] == text[mark..|text|];
      AddToken(ts, text, mark, |text|, CopyOf(text[mark..]), start.out, out);
    }
  }

  class SpRenderer {
    const flags: Flags
    var inSingleQuote: bool
    var inDoubleQuote: bool

    constructor (flags: Flags)
      ensures this.flags == flags && !inSingleQuote && !inDoubleQuote
    {
      this.flags := flags;
      inSingleQuote, inDoubleQuote := false, false;
    }

    /** Settles the direction of a quote and remembers it. */
    method QuoteHelper(prev: byte, next: byte, mark: byte, single: bool, nbsp: bool) returns (p: Piece)
      modifies this
      ensures p == Quote(Opens(prev, next, if single then old(inSingleQuote) else old(inDoubleQuote)), mark, nbsp)
      ensures if single then inSingleQuote == p.open && inDoubleQuote == old(inDoubleQuote)
              else inDoubleQuote == p.open && inSingleQuote == old(inSingleQuote)
    {
      if single {
        inSingleQuote := Opens(prev, next, inSingleQuote);
        p := Quote(inSingleQuote, mark, nbsp);
      } else {
        inDoubleQuote := Opens(prev, next, inDoubleQuote);
        p := Quote(inDoubleQuote, mark, nbsp);
      }
    }

    method SmartDoubleQuote(prev: byte, text: bytes, mark: byte) returns (extra: nat, piece: Piece)
      requires text != [] && text[0] == '\"' && (mark == 'd' || mark == 'a')
      modifies this
      ensures extra < |text| && Justified(Token(Head(text, extra), piece))
      ensures Reply(extra, piece) == Reply(0, Quote(Opens(prev, NextTo(text, 1), old(inDoubleQuote)), mark, false))
      ensures piece.Quote? && piece.mark != 's' && inDoubleQuote == piece.open && inSingleQuote == old(inSingleQuote)
    {
      extra := 0;
      piece := QuoteHelper(prev, if |text| > 1 then text[1] else Nul, mark, false, false);
      assert Head(text, 0) == "\"";
    }

    /** `&`, which may begin an escaped quote; `&#0;` is swallowed. */
    method SmartAmp(prev: byte, text: bytes, mark: byte, addNbsp: bool) returns (extra: nat, piece: Piece)
      requires text != [] && text[0] == '&' && (mark == 'd' || mark == 'a')
      modifies this
      ensures extra < |text| && Justified(Token(Head(text, extra), piece))
      ensures Reply(extra, piece) == AmpSays(prev, text, old(inDoubleQuote), mark, addNbsp)
      ensures piece.Quote? ==> piece.mark != 's'
      ensures inDoubleQuote == (if piece.Quote? then piece.open else old(inDoubleQuote))
              && inSingleQuote == old(inSingleQuote)
    {
      if StartsWith(text, "&quot;") {
        extra := 5;
        piece := QuoteHelper(prev, if |text| >= 7 then text[6] else Nul, mark, false, addNbsp);
        return;
      }
      if StartsWith(text, "&#0;") { return 3, Nothing; }
      return 0, Copy("&");
    }

    /** `'`: contractions first, then quotes. */
    method SmartSingleQuote(prev: byte, text: bytes) returns (extra: nat, piece: Piece)
      requires text != [] && text[0] == '\''
      modifies this
      ensures extra < |text| && Justified(Token(Head(text, extra), piece))
      ensures Reply(extra, piece) == SingleSays(prev, text, old(inSingleQuote), old(inDoubleQuote))
      ensures inDoubleQuote == if piece.Quote? && piece.mark != 's' then piece.open else old(inDoubleQuote)
      ensures inSingleQuote == if piece.Quote? && piece.mark == 's' then piece.open else old(inSingleQuote)
    {
      assert Head(text, 0) == "'";
      if |text| >= 2 {
        var t1 := ToLower(text[1]);
        if t1 == '\'' {
          assert text[1] == '\'';
          extra := 1;
          piece := QuoteHelper(prev, if |text| >= 3 then text[2] else Nul, 'd', false, false);
          assert Head(text, 1) == "''";
          return;
        }
        if (t1 == 's' || t1 == 't' || t1 == 'm' || t1 == 'd') && (|text| < 3 || WordBoundary(text[2])) {
          return 0, Entity("&rsquo;");
        }
        if |text| >= 3 {
          var t2 := ToLower(text[2]);
          if ((t1 == 'r' && t2 == 'e') || (t1 == 'l' && t2 == 'l') || (t1 == 'v' && t2 == 'e'))
             && (|text| < 4 || WordBoundary(text[3])) {
            return 0, Entity("&rsquo;");
          }
        }
      }
      extra := 0;
      piece := QuoteHelper(prev, if |text| > 1 then text[1] else Nul, 's', true, false);
    }

    method SmartBacktick(prev: byte, text: bytes) returns (extra: nat, piece: Piece)
      requires text != [] && text[0] == '`'
      modifies this
      ensures extra < |text| && Justified(Token(Head(text, extra), piece))
      ensures Reply(extra, piece) == BacktickSays(prev, text, old(inDoubleQuote))
      ensures piece.Quote? ==> piece.mark != 's'
      ensures inDoubleQuote == (if piece.Quote? then piece.open else old(inDoubleQuote))
              && inSingleQuote == old(inSingleQuote)
    {
      if |text| >= 2 && text[1] == '`' {
        extra := 1;
        piece := QuoteHelper(prev, if |text| >= 3 then text[2] else Nul, 'd', false, false);
        assert Head(text, 1) == "``";
        return;
      }
      return 0, Copy(text[..1]);
    }

    /** Rewrites `text` at the end of `out`.  The input is cut into consecutive
        stretches, each replaced as its handler says, and nothing else is written. */
    method Process(out: bytes, text: bytes) returns (out': bytes, ghost tokens: seq<Token>)
      modifies this
      ensures out' == out + Smart(flags, text, 0, old(inSingleQuote), old(inDoubleQuote))
      ensures Taken(tokens) == text && out' == out + Written(tokens)
      ensures forall k :: 0 <= k < |tokens| ==> Justified(tokens[k])
      ensures inDoubleQuote == LastQuote(tokens, false, old(inDoubleQuote))
      ensures inSingleQuote == LastQuote(tokens, true, old(inSingleQuote))
    {
      out', tokens := out, [];
      ghost var start := Start(out, inSingleQuote, inDoubleQuote);
      ProcessStarts(flags, text, start);
      hide Taken, Written, LastQuote, Spell, Justified, Head, ActionFor, Smart, Says, Processed;
      var mark: nat, i: nat := 0, 0;
      while i < |text|
        invariant Processed(flags, text, start, mark, i, inSingleQuote, inDoubleQuote, out', tokens)
        decreases |text| - i
      {
        var action := ActionFor(flags, text[i]);
        ActionFits(flags, text[i]);
        ProcessedFits(flags, text, start, mark, i, inSingleQuote, inDoubleQuote, out', tokens);
        if action.Some? {
          ghost var s, d, written := inSingleQuote, inDoubleQuote, out';
          if i > mark { out' := out' + text[mark..i]; }
          var prev := if i > 0 then text[i - 1] else Nul;
          var extra, piece := Dispatch(action.value, prev, text[i..]);
          ProcessedOn(flags, text, start, mark, i, s, d, written, tokens, Reply(extra, piece));
          out', tokens := out' + Spell(piece), More(tokens, text, mark, i, Reply(extra, piece));
          mark := i + extra + 1;
          i := i + extra;
        } else {
          ProcessedPast(flags, text, start, mark, i, inSingleQuote, inDoubleQuote, out', tokens);
        }
        i := i + 1;
      }
      ProcessEnds(flags, text, start, mark, i, inSingleQuote, inDoubleQuote, out', tokens);
      if mark < |text| {
        out', tokens := out' + text[mark..], tokens + [CopyOf(text[mark..])];
      }
    }

    /** Routes a byte to its handler; `extra` counts the bytes taken after the first. */
    method Dispatch(action: Action, prev: byte, text: bytes) returns (extra: nat, piece: Piece)
      requires text != [] && Fits(action, text[0])
      modifies this
      ensures extra <= |text| && Justified(Token(Head(text, extra), piece))
      ensures Reply(extra, piece) == Says(action, prev, text, old(inSingleQuote), old(inDoubleQuote))
      ensures inDoubleQuote == if piece.Quote? && piece.mark != 's' then piece.open else old(inDoubleQuote)
      ensures inSingleQuote == if piece.Quote? && piece.mark == 's' then piece.open else old(inSingleQuote)
      ensures extra == |text| ==> action == LeftAngle
    {
      match action
      case DoubleQuote(mark) => extra, piece := SmartDoubleQuote(prev, text, mark);
      case Amp(mark, addNbsp) => extra, piece := SmartAmp(prev, text, mark, addNbsp);
      case SingleQuote => extra, piece := SmartSingleQuote(prev, text);
      case Parens => extra, piece := SmartParens(text);
      case Dash => extra, piece := SmartDash(prev, text);
      case DashLatex => extra, piece := SmartDashLatex(text);
      case Period => extra, piece := SmartPeriod(text);
      case Number => extra, piece := SmartNumber(prev, text);
      case NumberGeneric => extra, piece := SmartNumberGeneric(prev, text);
      case LeftAngle => extra, piece := SmartLeftAngle(text);
      case Backtick => extra, piece := SmartBacktick(prev, text);
    }
  }

  // ----- escaped text -----

  lemma {:induction false} TokensComeFromText(ts: seq<Token>, k: nat, c: byte)
    requires k < |ts| && c in ts[k].taken
    ensures c in Taken(ts)
  {
    if k < |ts| - 1 { TokensComeFromText(ts[..|ts| - 1], k, c); }
  }

  lemma RawFreePiece(t: Token)
    requires Justified(t) && Esc.RawFree(t.taken)
    ensures t.piece.Fraction? || Esc.RawFree(Spell(t.piece))
    ensures '\"' !in Spell(t.piece)
  {
    hide StandsFor, AllDigits;
    match t.piece
    case Copy(s) =>
    case Entity(name) => EntityRawFree(name, t.taken);
    case Quote(open, mark, nbsp) =>
      PadCurly(open, mark, nbsp);
      hide Esc.RawFree, Pad, Curly;
      RawFreeConcat(Pad(nbsp && !open), Curly(open, mark));
      RawFreeConcat(Pad(nbsp && !open) + Curly(open, mark), Pad(nbsp && open));
    case Fraction(num, den) => FractionQuotes(num, den);
    case Nothing =>
  }

  lemma EntityRawFree(name: bytes, taken: bytes)
    requires StandsFor(name, taken)
    ensures Esc.RawFree(name)
  {
  }

  lemma PadCurly(open: bool, mark: byte, nbsp: bool)
    requires mark == 'd' || mark == 'a' || mark == 's'
    ensures Esc.RawFree(Pad(nbsp && !open)) && Esc.RawFree(Pad(nbsp && open)) && Esc.RawFree(Curly(open, mark))
  {
  }

  lemma RawFreeConcat(a: bytes, b: bytes)
    requires Esc.RawFree(a) && Esc.RawFree(b)
    ensures Esc.RawFree(a + b)
  {
  }

  lemma FractionQuotes(num: bytes, den: bytes)
    requires AllDigits(num) && AllDigits(den)
    ensures '\"' !in Spell(Fraction(num, den))
  {
    assert '\"' !in num && '\"' !in den;
    assert '\"' !in "<sup>" + num;
    assert '\"' !in "<sup>" + num + "</sup>&frasl;<sub>";
  }

  /** Over escaped text the tag handler never fires, and `<` and `>` reach the output
      only as the tags of a fraction; a double quote never does. */
  lemma EscapedTextStaysClean(ts: seq<Token>, k: nat)
    requires Esc.RawFree(Taken(ts)) && k < |ts| && Justified(ts[k])
    ensures ts[k].taken == [] || ts[k].taken[0] != '<'
    ensures ts[k].piece.Fraction? || Esc.RawFree(Spell(ts[k].piece))
    ensures '\"' !in Spell(ts[k].piece)
  {
    forall c | c in ts[k].taken ensures c in Taken(ts) { TokensComeFromText(ts, k, c); }
    RawFreePiece(ts[k]);
    assert ts[k].taken != [] ==> ts[k].taken[0] in ts[k].taken;
  }

  /** Text without `<`, `>` or `"`, or the fixed tags of a fraction around digits. */
  predicate TidyPiece(p: Piece) {
    match p
    case Fraction(num, den) => AllDigits(num) && AllDigits(den)
    case _ => Esc.RawFree(Spell(p))
  }

  ghost predicate TidyTokens(ts: seq<Token>) {
    forall k :: 0 <= k < |ts| ==> TidyPiece(ts[k].piece)
  }

  /** `<` and `>` occur in `s` only as the tags of fractions, `"` not at all. */
  ghost predicate Tidy(s: bytes) {
    exists ts :: TidyTokens(ts) && s == Written(ts)
  }

  lemma RawFreeIsTidy(s: bytes)
    requires Esc.RawFree(s)
    ensures Tidy(s)
  {
    var ts := [Token(s, Copy(s))];
    assert ts[..0] == [] && "" + s == s;
    assert TidyTokens(ts) && s == Written(ts);
  }

  /** Smart punctuation over escaped text. */
  lemma ProcessedIsTidy(ts: seq<Token>)
    requires Esc.RawFree(Taken(ts)) && forall k :: 0 <= k < |ts| ==> Justified(ts[k])
    ensures Tidy(Written(ts)) && '\"' !in Written(ts)
  {
    hide Esc.RawFree, Justified, Spell, Taken, Written;
    forall k | 0 <= k < |ts| ensures TidyPiece(ts[k].piece) {
      EscapedTextStaysClean(ts, k);
      FractionsAreDigits(ts[k]);
    }
    TidyHasNoQuote(Written(ts));
  }

  lemma FractionsAreDigits(t: Token)
    requires Justified(t)
    ensures t.piece.Fraction? ==> AllDigits(t.piece.num) && AllDigits(t.piece.den)
  {
  }

  lemma TidyHasNoQuote(s: bytes)
    requires Tidy(s)
    ensures '\"' !in s
  {
    var ts: seq<Token> :| TidyTokens(ts) && s == Written(ts);
    hide Written;
    forall k | 0 <= k < |ts| ensures '\"' !in Spell(ts[k].piece) {
      assert TidyPiece(ts[k].piece);
      if ts[k].piece.Fraction? { FractionQuotes(ts[k].piece.num, ts[k].piece.den); }
    }
    NoQuoteWritten(ts);
  }

  lemma {:induction false} NoQuoteWritten(ts: seq<Token>)
    requires forall k :: 0 <= k < |ts| ==> '\"' !in Spell(ts[k].piece)
    ensures '\"' !in Written(ts)
  {
    if ts != [] { NoQuoteWritten(ts[..|ts| - 1]); }
  }
}
