/** Tables (src/block.rs): header, alignment row, body rows. */
module BlockTable {
  import opened Bytes
  import opened Node
  import opened Growth
  import opened BlockScan
  import opened MD = Markdown
  import opened BlockLeaf
  import opened Outline

  // ----- scanning cells -----

  /** The first unescaped bar or newline at or after `i`. */
  function CellStop(data: bytes, i: nat): (k: nat)
    requires i <= |data|
    ensures i <= k <= |data|
    ensures k < |data| ==> data[k] == '\n' || (data[k] == '|' && !Escaped(data, k))
    decreases |data| - i
  {
    if i < |data| && (data[i] != '|' || Escaped(data, i)) && data[i] != '\n' then CellStop(data, i + 1) else i
  }

  function CellStart(data: bytes, i: nat): (k: nat)
    requires i <= |data|
    ensures i <= k <= |data|
  {
    Skip(data, i, Is(' '))
  }

  /** The text of the cell at `i`, without the spaces around it. */
  function CellText(data: bytes, i: nat): bytes
    requires i <= |data|
  {
    var a := CellStart(data, i);
    data[a..TrimTo(data, a, CellStop(data, a))]
  }

  /** The texts of `n` cells from `i` on; missing cells are empty, extra ones unread. */
  function CellTexts(data: bytes, i: nat, n: nat): (r: seq<bytes>)
    ensures |r| == n
    decreases n
  {
    if n == 0 then []
    else if i >= |data| then [""] + CellTexts(data, i, n - 1)
    else [CellText(data, i)] + CellTexts(data, CellStop(data, CellStart(data, i)) + 1, n - 1)
  }

  method NextCell(data: bytes, i: nat) returns (text: bytes, next: nat)
    requires i < |data|
    ensures text == CellText(data, i) && next == CellStop(data, CellStart(data, i)) + 1
  {
    var start := SkipChar(data, i, ' ');
    var k := start;
    while k < |data| && data[k] != '\n'
      invariant start <= k <= |data| && CellStop(data, k) == CellStop(data, start)
    {
      var escaped := IsBackslashEscaped(data, k);
      if data[k] == '|' && !escaped { break; }
      k := k + 1;
    }
    var end := k;
    while end > start && data[end - 1] == ' '
      invariant start <= end <= k && TrimTo(data, start, end) == TrimTo(data, start, k)
    {
      end := end - 1;
    }
    return data[start..end], k + 1;
  }

  // ----- rows -----

  /** A row has one cell per column, with that column's alignment. */
  ghost predicate RowShape(t: Tree, row: NodeId, columns: seq<CellAlign>, header: bool)
    requires t.Valid()
  {
    && row < |t.nodes| && t.Kind(row).TableRow? && t.nodes[row].data == NoData && |t.kids[row]| == |columns|
    && forall k :: 0 <= k < |columns| ==> CellShape(t, t.kids[row][k], columns[k], header)
  }

  ghost predicate CellShape(t: Tree, cell: NodeId, align: CellAlign, header: bool) {
    && cell < |t.nodes| && cell < |t.kids| && t.Kind(cell).TableCell? && t.kids[cell] == []
    && t.nodes[cell].data == NoData.(content := t.nodes[cell].data.content, cell := TableCellData(header, align))
  }

  // ----- what a table comes to -----

  function CellPart(text: bytes, header: bool, align: CellAlign): Part {
    Leaf(TableCell, NoData.(content := text, cell := TableCellData(header, align)))
  }

  function RowPart(columns: seq<CellAlign>, texts: seq<bytes>, header: bool): Part
    requires |texts| == |columns|
  {
    Part(NodeType.TableRow, NoData,
         seq(|columns|, k requires 0 <= k < |columns| => CellPart(texts[k], header, columns[k])))
  }

  /** The row that the line `data` gives. */
  function RowOf(data: bytes, columns: seq<CellAlign>, header: bool): Part
    requires data != []
  {
    RowPart(columns, CellTexts(data, RowStart(data), |columns|), header)
  }

  /** The rows of the body, from `i`, down to the first line without a bar. */
  function BodyRows(data: bytes, i: nat, columns: seq<CellAlign>): seq<Part>
    requires i <= |data|
    decreases |data| - i
  {
    if i < |data| && '|' in data[i..LineEnd(data, i)] then
      [RowOf(data[i..NextLine(data, i)], columns, false)] + BodyRows(data, NextLine(data, i), columns)
    else []
  }

  /** The table at the start of `data`: a head with one row and a body. */
  function TablePart(data: bytes): Part
    requires data != [] && TableHead(data).Some?
  {
    var (size, columns) := TableHead(data).value;
    Part(NodeType.Table, NoData,
         [Part(NodeType.TableHead, NoData, [RowOf(data[..NextLine(data, 0)], columns, true)]),
          Part(NodeType.TableBody, NoData, BodyRows(data, size, columns))])
  }

  lemma RowShown(t0: Tree, t: Tree, p: NodeId, row: NodeId, tip: NodeId, columns: seq<CellAlign>, texts: seq<bytes>,
                 header: bool)
    requires Building(t0, t, p, row, tip, columns, texts, header) && |texts| == |columns|
    ensures Grown(t0, t, p) && Gains(t0, t, p, [RowPart(columns, texts, header)])
  {
    var part := RowPart(columns, texts, header);
    forall k | 0 <= k < |part.parts| ensures Shows(t, t.kids[row][k], part.parts[k]) {
      assert CellShape(t, t.kids[row][k], columns[k], header);
    }
    assert Shows(t, row, part);
  }

  ghost predicate CellTextsAre(t: Tree, row: NodeId, texts: seq<bytes>)
    requires t.Valid() && row < |t.nodes|
  {
    |t.kids[row]| <= |texts| &&
    forall k :: 0 <= k < |t.kids[row]| ==>
      t.kids[row][k] < |t.nodes| && t.nodes[t.kids[row][k]].data.content == texts[k]
  }

  lemma RowShapeGrown(t: Tree, u: Tree, e: NodeId, row: NodeId, columns: seq<CellAlign>, header: bool)
    requires Grown(t, u, e) && RowShape(t, row, columns, header) && row != e && !t.Kind(e).TableCell?
    ensures RowShape(u, row, columns, header)
  {
    assert Same(t, u, row);
    forall k | 0 <= k < |columns| ensures CellShape(u, u.kids[row][k], columns[k], header) {
      assert CellShape(t, t.kids[row][k], columns[k], header);
      assert Same(t, u, t.kids[row][k]);
    }
  }

  /** The insertion point is at a row or at one of its cells. */
  ghost predicate RowTip(t: Tree, tip: NodeId, row: NodeId, p: NodeId) {
    && t.Valid() && tip < |t.nodes| && row < |t.nodes| && p < |t.nodes|
    && t.Kind(row).TableRow? && t.Parent(row) == Some(p)
    && (tip == row || (t.Kind(tip).TableCell? && t.Parent(tip) == Some(row)))
  }

  lemma ClimbUp(t: Tree, x: NodeId, p: NodeId, kind: NodeType, e: NodeId)
    requires t.Valid() && x < |t.nodes| && t.Parent(x) == Some(p) && p < |t.nodes|
    requires !t.Kind(x).CanContain(kind) && ClimbsTo(t, p, kind, e)
    ensures ClimbsTo(t, x, kind, e)
  {
    assert t.UpOk(x);
  }

  lemma BelowUp(t: Tree, x: NodeId, p: NodeId, e: NodeId)
    requires t.Valid() && x < |t.nodes| && t.Parent(x) == Some(p) && p < |t.nodes|
    requires Sealed(t.Kind(x)) && TipBelow(t, p, e)
    ensures TipBelow(t, x, e)
  {
    assert t.UpOk(x);
  }

  /** From a row or its cells, anything but a cell climbs past the row. */
  lemma RowTipClimbs(t: Tree, tip: NodeId, row: NodeId, p: NodeId, kind: NodeType, e: NodeId)
    requires RowTip(t, tip, row, p) && !kind.TableCell? && ClimbsTo(t, p, kind, e)
    ensures ClimbsTo(t, tip, kind, e)
  {
    ClimbUp(t, row, p, kind, e);
    if tip != row { ClimbUp(t, tip, row, kind, e); }
  }

  lemma RowTipBelow(t: Tree, tip: NodeId, row: NodeId, p: NodeId, e: NodeId)
    requires RowTip(t, tip, row, p) && TipBelow(t, p, e)
    ensures TipBelow(t, tip, e)
  {
    BelowUp(t, row, p, e);
    if tip != row { BelowUp(t, tip, row, e); }
  }

  /** A row under construction: `col` of its cells are there. */
  ghost predicate Building(t0: Tree, t: Tree, p: NodeId, row: NodeId, tip: NodeId, columns: seq<CellAlign>,
                           texts: seq<bytes>, header: bool)
  {
    && t0.Valid() && p < |t0.nodes| && row == |t0.nodes|
    && BlockGrown(t0, t, p, t0.level[p] + 2) && EdgesOk(t)
    && t.kids[p] == t0.kids[p] + [row] && row < |t.nodes| && t.level[row] == t0.level[p] + 1
    && RowTip(t, tip, row, p)
    && RowShape(t, row, columns, header) && CellTextsAre(t, row, texts)
  }

  lemma AddedGrows(t: Tree, u: Tree, e: NodeId, node: NodeId, kind: NodeType)
    requires Markdown.Added(t, u, e, node, kind) && BlockNode(u.nodes[node])
    ensures BlockGrown(t, u, e, t.level[e] + 1)
  {
  }

  lemma CellAdded(t0: Tree, t: Tree, u: Tree, p: NodeId, row: NodeId, tip: NodeId, node: NodeId,
                  columns: seq<CellAlign>, texts: seq<bytes>, header: bool, align: CellAlign)
    requires Building(t0, t, p, row, tip, columns, texts, header)
    requires Markdown.Added(t, u, row, node, TableCell) && EdgesOk(u) && |texts| > |columns|
    requires u.nodes[node].data == NoData.(content := texts[|columns|], cell := TableCellData(header, align))
    ensures Building(t0, u, p, row, node, columns + [align], texts, header)
  {
    assert Same(t, u, row) && Same(t, u, p);
    AddedGrows(t, u, row, node, TableCell);
    BlockGrownTrans(t0, t, u, p, row, t0.level[p] + 2, t0.level[p] + 2);
    forall k | 0 <= k < |columns| + 1
      ensures CellShape(u, u.kids[row][k], (columns + [align])[k], header)
      ensures u.nodes[u.kids[row][k]].data.content == texts[k]
    {
      if k < |columns| {
        assert CellShape(t, t.kids[row][k], columns[k], header);
        assert Same(t, u, t.kids[row][k]);
      }
    }
    assert u.UpOk(node);
  }

  method AddCell(m: Markdown, text: bytes, header: bool, align: CellAlign, ghost t0: Tree, ghost p: NodeId,
                 row: NodeId, ghost columns: seq<CellAlign>, ghost texts: seq<bytes>)
    requires m.Valid() && Building(t0, m.arena.T(), p, row, m.tip, columns, texts, header)
    requires |texts| > |columns| && text == texts[|columns|]
    modifies m`tip, m`oldTip, m`allClosed, m.arena
    ensures m.Valid() && Building(t0, m.arena.T(), p, row, m.tip, columns + [align], texts, header)
  {
    ghost var t := m.arena.T();
    CellClimbs(t, m.tip, row, p);
    hide Building, ClimbsTo, Tree.Valid, Grown;
    var cell := m.AddBlock(TableCell, text, row);
    var d := NoData.(content := text, cell := TableCellData(header, align));
    ghost var u := m.arena.T();
    FilledIsAdded(t, u, row, cell, TableCell, d);
    FillEdges(t, u, row, cell, d);
    CellAdded(t0, t, WithData(u, cell, d), p, row, old(m.tip), cell, columns, texts, header, align);
    m.arena.SetData(cell, d);
  }

  lemma FillEdges(t: Tree, u: Tree, e: NodeId, node: NodeId, d: Data)
    requires Grown(t, u, e) && |t.nodes| <= node < |u.nodes| && EdgesOk(u)
    ensures EdgesOk(WithData(u, node, d)) && WithData(u, node, d).Valid()
    ensures forall x :: 0 <= x < |u.nodes| ==> WithData(u, node, d).Kind(x) == u.Kind(x)
  {
    DataGrows(t, u, e, node, d);
  }

  lemma CellClimbs(t: Tree, tip: NodeId, row: NodeId, p: NodeId)
    requires RowTip(t, tip, row, p)
    ensures ClimbsTo(t, tip, TableCell, row)
  {
    if tip != row { ClimbUp(t, tip, row, TableCell, row); }
  }

  lemma RowStarted(t0: Tree, t: Tree, p: NodeId, row: NodeId, texts: seq<bytes>, header: bool)
    requires Markdown.Added(t0, t, p, row, NodeType.TableRow) && EdgesOk(t) && t.nodes[row].data == NoData
    ensures Building(t0, t, p, row, row, [], texts, header)
  {
    assert t.UpOk(row);
    assert t.kids[row] == [];
  }

  /** Position of the first cell: past a leading bar. */
  function RowStart(data: bytes): nat
    requires data != []
  {
    if data[0] == '|' then 1 else 0
  }

  /** One row: exactly one cell per column; missing cells are padded with empty
      ones, extra ones are dropped. */
  method TableRow(m: Markdown, data: bytes, columns: seq<CellAlign>, header: bool, ghost p: NodeId)
    returns (row: NodeId)
    requires data != [] && m.Valid() && ClimbsTo(m.arena.T(), m.tip, NodeType.TableRow, p)
    modifies m`tip, m`oldTip, m`allClosed, m.arena
    ensures m.Valid()
    ensures Building(old(m.arena.T()), m.arena.T(), p, row, m.tip, columns,
                     CellTexts(data, RowStart(data), |columns|), header)
    ensures Gains(old(m.arena.T()), m.arena.T(), p, [RowOf(data, columns, header)])
  {
    hide Gains, RowPart, Building, Tree.Valid, ClimbsTo, EdgesOk, CellText, CellStop, CellStart, Markdown.Valid,
         Markdown.Added;
    ghost var t0 := m.arena.T();
    row := m.AddBlock(NodeType.TableRow, "", p);
    ghost var texts := CellTexts(data, RowStart(data), |columns|);
    RowStarted(t0, m.arena.T(), p, row, texts, header);
    var i: nat := 0;
    if data[i] == '|' { i := i + 1; }
    var col: nat := 0;
    assert texts[0..] == texts && columns[..0] == [];
    while col < |columns| && i < |data|
      invariant 0 <= col <= |columns| && m.Valid()
      invariant Building(t0, m.arena.T(), p, row, m.tip, columns[..col], texts, header)
      invariant texts[col..] == CellTexts(data, i, |columns| - col)
      decreases |columns| - col
    {
      var text, next := NextCell(data, i);
      TextsStep(texts, col);
      AddCell(m, text, header, columns[col], t0, p, row, columns[..col], texts);
      SliceStep(columns, col);
      i := next;
      col := col + 1;
    }
    PadRow(m, columns, header, col, t0, p, row, texts, data, i);
    RowShown(t0, m.arena.T(), p, row, m.tip, columns, texts, header);
  }

  /** Pads a row out with empty cells. */
  method PadRow(m: Markdown, columns: seq<CellAlign>, header: bool, start: nat, ghost t0: Tree, ghost p: NodeId,
                row: NodeId, ghost texts: seq<bytes>, ghost data: bytes, ghost i: nat)
    requires start <= |columns| == |texts| && m.Valid() && (start < |columns| ==> i >= |data|)
    requires Building(t0, m.arena.T(), p, row, m.tip, columns[..start], texts, header)
    requires texts[start..] == CellTexts(data, i, |columns| - start)
    modifies m`tip, m`oldTip, m`allClosed, m.arena
    ensures m.Valid() && Building(t0, m.arena.T(), p, row, m.tip, columns, texts, header)
  {
    hide Building, Tree.Valid, EdgesOk, CellText, CellStop, CellStart;
    var col := start;
    while col < |columns|
      invariant 0 <= col <= |columns| && m.Valid() && (col < |columns| ==> i >= |data|)
      invariant Building(t0, m.arena.T(), p, row, m.tip, columns[..col], texts, header)
      invariant texts[col..] == CellTexts(data, i, |columns| - col)
    {
      TextsStep(texts, col);
      AddCell(m, "", header, columns[col], t0, p, row, columns[..col], texts);
      SliceStep(columns, col);
      col := col + 1;
    }
    assert columns[..col] == columns;
  }

  lemma TextsStep(s: seq<bytes>, i: nat)
    requires i < |s|
    ensures s[i..] == [s[i]] + s[i + 1..]
  {
  }

  lemma SliceStep(s: seq<CellAlign>, i: nat)
    requires i < |s|
    ensures s[..i] + [s[i]] == s[..i + 1]
  {
  }

  // ----- the header -----

  /** Unescaped bars before position `i`. */
  function Bars(data: bytes, i: nat): nat
    requires i <= |data|
  {
    if i == 0 then 0 else Bars(data, i - 1) + (if data[i - 1] == '|' && !Escaped(data, i - 1) then 1 else 0)
  }

  lemma {:induction false} BarsMonotone(data: bytes, i: nat, j: nat)
    requires i <= j <= |data|
    ensures Bars(data, i) <= Bars(data, j)
    decreases j - i
  {
    if i < j { BarsMonotone(data, i, j - 1); }
  }

  /** How many columns a header line has; leading and trailing bars do not count. */
  function ColumnCount(data: bytes): int
    requires data != []
  {
    var i := LineEnd(data, 0);
    Bars(data, i) + 1 - (if data[0] == '|' then 1 else 0)
    - (if i > 2 && data[i - 1] == '|' && !Escaped(data, i - 1) then 1 else 0)
  }

  /** A line with an unescaped bar has a column. */
  lemma SomeColumn(data: bytes)
    requires data != [] && Bars(data, LineEnd(data, 0)) > 0
    ensures ColumnCount(data) >= 1
  {
    var i := LineEnd(data, 0);
    if i > 2 {
      BarsMonotone(data, 1, i - 1);
      assert Bars(data, 1) == Bars(data, 0) + (if data[0] == '|' && !Escaped(data, 0) then 1 else 0);
    }
  }

  method CountBars(data: bytes) returns (i: nat, count: nat)
    ensures i == LineEnd(data, 0) && count == Bars(data, i)
  {
    i, count := 0, 0;
    while i < |data| && data[i] != '\n'
      invariant 0 <= i <= |data| && count == Bars(data, i)
      invariant forall k :: 0 <= k < i ==> data[k] != '\n'
    {
      var escaped := IsBackslashEscaped(data, i);
      if data[i] == '|' && !escaped { count := count + 1; }
      i := i + 1;
    }
    SkipUnique(data, 0, Not('\n'), i);
  }

  /** One column of the alignment row, from `i`: colons, dashes, colon, spaces. */
  function ColumnEnd(data: bytes, i: nat): (k: nat)
    requires i <= |data|
    ensures i <= k <= |data|
  {
    var a := if i < |data| && data[i] == ':' then i + 1 else i;
    var b := Skip(data, a, Is('-'));
    if b < |data| && data[b] == ':' then b + 1 else b
  }

  function ColumnAlign(data: bytes, i: nat): CellAlign
    requires i < |data|
  {
    var a := if data[i] == ':' then i + 1 else i;
    var b := Skip(data, a, Is('-'));
    CellAlign(data[i] == ':', b < |data| && data[b] == ':')
  }

  method ScanColumn(data: bytes, i: nat) returns (k: nat, align: CellAlign)
    requires i < |data|
    ensures k == ColumnEnd(data, i) && align == ColumnAlign(data, i)
  {
    k := i;
    var left, right := false, false;
    if data[k] == ':' {
      k := k + 1;
      left := true;
    }
    k := SkipChar(data, k, '-');
    if k < |data| && data[k] == ':' {
      k := k + 1;
      right := true;
    }
    align := CellAlign(left, right);
  }

  /** The alignment row from `i`, with `col` of `count` columns read: where it ends
      and the remaining alignments, or `None` if it is malformed. */
  function AlignRow(data: bytes, i: nat, col: nat, count: nat): (r: Option<(nat, seq<CellAlign>)>)
    requires i <= |data|
    ensures r.Some? ==> i <= r.value.0 <= |data| && col + |r.value.1| == count
    ensures r.Some? && r.value.0 < |data| ==> data[r.value.0] == '\n'
    decreases |data| - i
  {
    if i >= |data| || data[i] == '\n' then (if col == count then Some((i, [])) else None)
    else
      var e := ColumnEnd(data, i);
      var k := Skip(data, e, Is(' '));
      if k == |data| || e - i < 3 then None
      else if data[k] == '|' && !Escaped(data, k) then
        var n := Skip(data, k + 1, Is(' '));
        if col + 1 >= count && n < |data| && data[n] != '\n' then None
        else
          var rest := AlignRow(data, n, col + 1, count);
          if rest == None then None else Some((rest.value.0, [ColumnAlign(data, i)] + rest.value.1))
      else if col + 1 < count || data[k] != '\n' then None
      else if col + 1 == count then Some((k, [ColumnAlign(data, i)]))
      else None
  }

  /** One column of the alignment row. */
  method AlignStep(data: bytes, i: nat, col: nat, count: nat) returns (ok: bool, next: nat, align: CellAlign)
    requires i < |data| && data[i] != '\n' && col < count
    ensures !ok ==> AlignRow(data, i, col, count) == None
    ensures ok ==> i < next <= |data| && (next < |data| && data[next] != '\n' ==> col + 1 < count)
                   && AlignRow(data, i, col, count) == Prepend([align], AlignRow(data, next, col + 1, count))
  {
    hide ColumnEnd, ColumnAlign, Escaped, Skip;
    var e;
    e, align := ScanColumn(data, i);
    var k := SkipChar(data, e, ' ');
    if k == |data| || e - i < 3 { return false, i, align; }
    var escaped := IsBackslashEscaped(data, k);
    if data[k] == '|' && !escaped {
      var n := SkipChar(data, k + 1, ' ');
      if col + 1 >= count && n < |data| && data[n] != '\n' { return false, i, align; }
      return true, n, align;
    }
    if col + 1 < count || data[k] != '\n' { return false, i, align; }
    assert [align] + [] == [align];
    return true, k, align;
  }

  /** Reads the alignment row.  No column past the last is ever written: whenever a
      column is read there is still one to fill. */
  method ScanAlignRow(data: bytes, start: nat, count: nat) returns (ok: bool, i: nat, columns: seq<CellAlign>)
    requires start <= |data| && count >= 1
    ensures ok <==> AlignRow(data, start, 0, count).Some?
    ensures ok ==> AlignRow(data, start, 0, count) == Some((i, columns))
  {
    hide AlignRow, Prepend;
    columns := [];
    i := start;
    PrependNothing(AlignRow(data, start, 0, count));
    while i < |data| && data[i] != '\n'
      invariant start <= i <= |data| && |columns| <= count
      invariant i < |data| && data[i] != '\n' ==> |columns| < count
      invariant AlignRow(data, start, 0, count) == Prepend(columns, AlignRow(data, i, |columns|, count))
      decreases |data| - i
    {
      var step, next, align := AlignStep(data, i, |columns|, count);
      if !step {
        PrependNone(columns);
        return false, 0, [];
      }
      PrependStep(columns, align, AlignRow(data, next, |columns| + 1, count));
      columns := columns + [align];
      i := next;
    }
    AlignRowEnds(data, i, columns, count);
    ok := |columns| == count;
  }

  lemma AlignRowEnds(data: bytes, i: nat, columns: seq<CellAlign>, count: nat)
    requires i <= |data| && (i < |data| ==> data[i] == '\n')
    ensures Prepend(columns, AlignRow(data, i, |columns|, count))
         == if |columns| == count then Some((i, columns)) else None
  {
    assert columns + [] == columns;
  }

  function Prepend(columns: seq<CellAlign>, r: Option<(nat, seq<CellAlign>)>): Option<(nat, seq<CellAlign>)> {
    if r == None then None else Some((r.value.0, columns + r.value.1))
  }

  lemma PrependNothing(r: Option<(nat, seq<CellAlign>)>)
    ensures Prepend([], r) == r
  {
    if r.Some? { assert [] + r.value.1 == r.value.1; }
  }

  lemma PrependNone(columns: seq<CellAlign>)
    ensures Prepend(columns, None) == None
  {
  }

  lemma PrependStep(columns: seq<CellAlign>, align: CellAlign, r: Option<(nat, seq<CellAlign>)>)
    ensures Prepend(columns, Prepend([align], r)) == Prepend(columns + [align], r)
  {
    if r.Some? { assert columns + ([align] + r.value.1) == (columns + [align]) + r.value.1; }
  }

  /** The header line and the alignment row: where they end and the alignments. */
  function TableHead(data: bytes): (r: Option<(nat, seq<CellAlign>)>)
    requires data != []
    ensures r.Some? ==> 0 < r.value.0 <= |data|
  {
    var i := LineEnd(data, 0);
    if Bars(data, i) == 0 || i + 1 >= |data| || ColumnCount(data) < 1 then None
    else
      var a := if data[i + 1] == '|' && !Escaped(data, i + 1) then i + 2 else i + 1;
      var r := AlignRow(data, Skip(data, a, Is(' ')), 0, ColumnCount(data));
      if r == None then None else Some((NextLine(data, r.value.0), r.value.1))
  }

  method CountColumns(data: bytes) returns (i: nat, count: nat)
    requires data != []
    ensures i == LineEnd(data, 0) && (count == 0 <==> Bars(data, i) == 0)
    ensures count > 0 ==> count == ColumnCount(data)
  {
    var bars;
    i, bars := CountBars(data);
    if bars == 0 { return i, 0; }
    SomeColumn(data);
    count := bars + 1;
    if data[0] == '|' { count := count - 1; }
    if i > 2 && data[i - 1] == '|' {
      var escaped := IsBackslashEscaped(data, i - 1);
      if !escaped { count := count - 1; }
    }
  }

  method ScanHead(data: bytes) returns (size: nat, columns: seq<CellAlign>, headerEnd: nat)
    requires data != []
    ensures size > 0 <==> TableHead(data).Some?
    ensures size > 0 ==> TableHead(data) == Some((size, columns)) && headerEnd == NextLine(data, 0) && headerEnd > 0
  {
    hide AlignRow, ColumnCount, Bars, Escaped;
    var i, count := CountColumns(data);
    if count == 0 { return 0, [], 0; }
    headerEnd := i;
    if headerEnd < |data| && data[headerEnd] == '\n' { headerEnd := headerEnd + 1; }
    i := i + 1;
    if i >= |data| { return 0, [], 0; }
    size, columns := ScanAlignLine(data, i, count);
  }

  /** The alignment row at `start`, from past a leading bar on; 0 if it is malformed. */
  method ScanAlignLine(data: bytes, start: nat, count: nat) returns (size: nat, columns: seq<CellAlign>)
    requires start < |data| && count >= 1
    ensures var a := if data[start] == '|' && !Escaped(data, start) then start + 1 else start;
            var r := AlignRow(data, Skip(data, a, Is(' ')), 0, count);
            && (size > 0 <==> r.Some?)
            && (size > 0 ==> size == NextLine(data, r.value.0) && columns == r.value.1)
  {
    hide AlignRow, Escaped, Skip;
    var i := start;
    var escaped := IsBackslashEscaped(data, i);
    if data[i] == '|' && !escaped { i := i + 1; }
    i := SkipChar(data, i, ' ');
    var ok;
    ok, i, columns := ScanAlignRow(data, i, count);
    if !ok { return 0, []; }
    RowEndsLine(data, i);
    size := i;
    if size < |data| && data[size] == '\n' { size := size + 1; }
  }

  lemma RowEndsLine(data: bytes, i: nat)
    requires i <= |data| && (i < |data| ==> data[i] == '\n')
    ensures NextLine(data, i) == if i < |data| then i + 1 else i
  {
  }

  // ----- the table -----

  /** Body rows run to the first line without a bar. */
  function RowsEnd(data: bytes, i: nat): (k: nat)
    requires i <= |data|
    ensures i <= k <= |data|
    decreases |data| - i
  {
    if i < |data| && '|' in data[i..LineEnd(data, i)] then RowsEnd(data, NextLine(data, i)) else i
  }

  /** Size of the table at the start of `data`; 0 if there is none. */
  function TableSize(data: bytes): (n: nat)
    requires data != []
    ensures n <= |data|
  {
    var h := TableHead(data);
    if h == None then 0 else RowsEnd(data, h.value.0)
  }

  /** Table[TableHead[row], TableBody[rows]], every row as wide as the header and
      every cell aligned as its column says. */
  ghost predicate TableShape(t: Tree, table: NodeId, columns: seq<CellAlign>)
    requires t.Valid()
  {
    && table < |t.nodes| && t.Kind(table).Table? && |t.kids[table]| == 2
    && var head, body := t.kids[table][0], t.kids[table][1];
    && head < |t.nodes| && t.Kind(head).TableHead? && |t.kids[head]| == 1
    && RowShape(t, t.kids[head][0], columns, true)
    && body < |t.nodes| && t.Kind(body).TableBody?
    && forall k :: 0 <= k < |t.kids[body]| ==> RowShape(t, t.kids[body][k], columns, false)
  }

  /** The table so far: `tip` is in the last row, or at the body. */
  ghost predicate TableSoFar(t0: Tree, t: Tree, e: NodeId, table: NodeId, body: NodeId, tip: NodeId,
                             columns: seq<CellAlign>)
  {
    && e < |t0.level| && BlockGrown(t0, t, e, t0.level[e] + 4) && EdgesOk(t)
    && table == |t0.nodes| && table < body < |t.nodes| && t.level[body] == t0.level[e] + 2
    && t.kids[e] == t0.kids[e] + [table] && t.Parent(table) == Some(e) && t.Parent(body) == Some(table)
    && TableShape(t, table, columns) && t.kids[table][1] == body
    && tip < |t.nodes| && (tip == body || exists row :: RowTip(t, tip, row, body))
  }

  lemma TipUnderBody(t0: Tree, t: Tree, e: NodeId, table: NodeId, body: NodeId, tip: NodeId, columns: seq<CellAlign>)
    requires TableSoFar(t0, t, e, table, body, tip, columns) && HostsBlocks(t0.Kind(e))
    ensures ClimbsTo(t, tip, NodeType.TableRow, body) && Good(t, tip, e)
    ensures BlockGrown(t0, t, e, t0.level[e] + 4) && TableBuilt(t0, t, e, columns)
  {
    assert Same(t0, t, e);
    BelowUp(t, table, e, e);
    BelowUp(t, body, table, e);
    if tip != body {
      var row :| RowTip(t, tip, row, body);
      RowTipClimbs(t, tip, row, body, NodeType.TableRow, body);
      RowTipBelow(t, tip, row, body, e);
    }
  }

  lemma BodyRowAdded(t0: Tree, t: Tree, u: Tree, e: NodeId, table: NodeId, body: NodeId, tip: NodeId, tip': NodeId,
                     row: NodeId, columns: seq<CellAlign>, texts: seq<bytes>)
    requires TableSoFar(t0, t, e, table, body, tip, columns)
    requires Building(t, u, body, row, tip', columns, texts, false)
    ensures TableSoFar(t0, u, e, table, body, tip', columns)
  {
    BlockGrownTrans(t0, t, u, e, body, t0.level[e] + 4, t.level[body] + 2);
    var head := t.kids[table][0];
    assert Same(t, u, table) && Same(t, u, head) && Same(t, u, body);
    RowShapeGrown(t, u, body, t.kids[head][0], columns, true);
    RowsKept(t, u, body, row, columns);
  }

  lemma RowsKept(t: Tree, u: Tree, body: NodeId, row: NodeId, columns: seq<CellAlign>)
    requires Grown(t, u, body) && u.kids[body] == t.kids[body] + [row] && RowShape(u, row, columns, false)
    requires t.Kind(body).TableBody?
    requires forall k :: 0 <= k < |t.kids[body]| ==> RowShape(t, t.kids[body][k], columns, false)
    ensures forall k :: 0 <= k < |u.kids[body]| ==> RowShape(u, u.kids[body][k], columns, false)
  {
    forall k | 0 <= k < |u.kids[body]| ensures RowShape(u, u.kids[body][k], columns, false) {
      if k < |t.kids[body]| { RowShapeGrown(t, u, body, t.kids[body][k], columns, false); }
    }
  }

  /** One body row. */
  method BodyRow(m: Markdown, data: bytes, columns: seq<CellAlign>, ghost t0: Tree, ghost e: NodeId,
                 ghost table: NodeId, ghost body: NodeId)
    requires data != [] && m.Valid() && TableSoFar(t0, m.arena.T(), e, table, body, m.tip, columns)
    requires HostsBlocks(t0.Kind(e))
    modifies m`tip, m`oldTip, m`allClosed, m.arena
    ensures m.Valid() && TableSoFar(t0, m.arena.T(), e, table, body, m.tip, columns)
    ensures Grown(old(m.arena.T()), m.arena.T(), body)
    ensures Gains(old(m.arena.T()), m.arena.T(), body, [RowOf(data, columns, false)])
  {
    ghost var t, tip0 := m.arena.T(), m.tip;
    TipUnderBody(t0, t, e, table, body, m.tip, columns);
    hide TableSoFar, Building, ClimbsTo, Tree.Valid, EdgesOk, Gains, Grown, RowOf;
    var row := TableRow(m, data, columns, false, body);
    BodyRowAdded(t0, t, m.arena.T(), e, table, body, tip0, m.tip, row, columns,
                 CellTexts(data, RowStart(data), |columns|));
    BuildingGrows(t, m.arena.T(), body, row, m.tip, columns, CellTexts(data, RowStart(data), |columns|), false);
  }

  lemma BuildingGrows(t0: Tree, t: Tree, p: NodeId, row: NodeId, tip: NodeId, columns: seq<CellAlign>,
                      texts: seq<bytes>, header: bool)
    requires Building(t0, t, p, row, tip, columns, texts, header)
    ensures Grown(t0, t, p)
  {
  }

  lemma HeadGrown(t0: Tree, t1: Tree, t2: Tree, t3: Tree, t4: Tree, e: NodeId, table: NodeId, head: NodeId,
                  row: NodeId, body: NodeId, tip: NodeId, columns: seq<CellAlign>, texts: seq<bytes>)
    requires Markdown.Added(t0, t1, e, table, NodeType.Table)
    requires Markdown.Added(t1, t2, table, head, NodeType.TableHead)
    requires Building(t2, t3, head, row, tip, columns, texts, true)
    requires Markdown.Added(t3, t4, table, body, NodeType.TableBody) && EdgesOk(t4)
    ensures BlockGrown(t0, t4, e, t0.level[e] + 4)
  {
    var b := t0.level[e] + 4;
    AddedGrows(t0, t1, e, table, NodeType.Table);
    AddedGrows(t1, t2, table, head, NodeType.TableHead);
    AddedGrows(t3, t4, table, body, NodeType.TableBody);
    assert t2.level[table] == t1.level[table] by { assert Same(t1, t2, table); }
    assert t3.level[table] == t2.level[table] by { assert Same(t2, t3, table); }
    hide BlockGrown, Tree.Valid, EdgesOk, RowShape, CellTextsAre, RowTip;
    BoundWeakens(t0, t1, e, t0.level[e] + 1, b);
    BlockGrownTrans(t0, t1, t2, e, table, b, t1.level[table] + 1);
    BlockGrownTrans(t0, t2, t3, e, head, b, t2.level[head] + 2);
    BlockGrownTrans(t0, t3, t4, e, table, b, t3.level[table] + 1);
  }

  lemma HeadDone(t0: Tree, t1: Tree, t2: Tree, t3: Tree, t4: Tree, e: NodeId, table: NodeId, head: NodeId,
                 row: NodeId, body: NodeId, tip: NodeId, columns: seq<CellAlign>, texts: seq<bytes>)
    requires Markdown.Added(t0, t1, e, table, NodeType.Table)
    requires Markdown.Added(t1, t2, table, head, NodeType.TableHead)
    requires Building(t2, t3, head, row, tip, columns, texts, true)
    requires Markdown.Added(t3, t4, table, body, NodeType.TableBody) && EdgesOk(t4)
    ensures TableSoFar(t0, t4, e, table, body, body, columns)
  {
    HeadKinds(t0, t1, t2, t3, t4, e, table, head, row, body, tip, columns, texts);
    HeadGrown(t0, t1, t2, t3, t4, e, table, head, row, body, tip, columns, texts);
    hide BlockGrown, Tree.Valid, EdgesOk;
    t3.KidOf(head, row);
    assert Same(t3, t4, table);
    RowShapeGrown(t3, t4, table, row, columns, true);
    assert t4.kids[body] == [];
  }

  /** Who is whose child once the header and the empty body are in place. */
  lemma HeadKinds(t0: Tree, t1: Tree, t2: Tree, t3: Tree, t4: Tree, e: NodeId, table: NodeId, head: NodeId,
                  row: NodeId, body: NodeId, tip: NodeId, columns: seq<CellAlign>, texts: seq<bytes>)
    requires Markdown.Added(t0, t1, e, table, NodeType.Table)
    requires Markdown.Added(t1, t2, table, head, NodeType.TableHead)
    requires Building(t2, t3, head, row, tip, columns, texts, true)
    requires Markdown.Added(t3, t4, table, body, NodeType.TableBody)
    ensures t4.kids[e] == t0.kids[e] + [table] && t4.kids[table] == [head, body] && t4.kids[head] == [row]
    ensures t4.Kind(table).Table? && t4.Kind(head).TableHead? && t4.Kind(body).TableBody?
    ensures t4.Parent(table) == Some(e) && t4.level[table] == t0.level[e] + 1 && t4.level[head] == t0.level[e] + 2
    ensures t4.level[body] == t0.level[e] + 2 && t2.level[head] == t0.level[e] + 2
    ensures t1.level[table] == t0.level[e] + 1
  {
    hide RowShape, CellTextsAre, RowTip;
    assert Same(t1, t2, table) && Same(t2, t3, table) && Same(t3, t4, table);
    assert Same(t2, t3, head) && Same(t3, t4, head);
    assert t1.kids[table] == [] && t2.kids[head] == [];
  }

  /** A failed table leaves every existing node's links as they were. */
  lemma TableUndone(t0: Tree, t: Tree, e: NodeId, table: NodeId)
    requires Markdown.Added(t0, t, e, table, NodeType.Table) && EdgesOk(t) && HostsBlocks(t0.Kind(e))
    ensures var u := t.Unlinked(table);
            Good(u, e, e) && BlockGrown(t0, u, e, t0.level[e] + 4)
            && LinksKept(t0, u) && t.Parent(table) == Some(e) && table < |t.nodes|
  {
    hide Tree.Unlinked, Good, BlockGrown, EdgesOk, Same;
    var u := t.Unlinked(table);
    EdgesAfterUnlink(t, table);
    UndoneKids(t0, t, e, table);
    UndoneTable(t0, t, e, table);
    forall x | 0 <= x < |t0.nodes|
      ensures Same(t0, u, x) && u.nodes[x].links == t0.nodes[x].links && u.Kind(x) == t0.Kind(x)
    {
      UndoneNode(t0, t, e, table, x);
    }
    UndoneGrows(t0, u, e, table);
  }

  lemma UndoneTable(t0: Tree, t: Tree, e: NodeId, table: NodeId)
    requires Markdown.Added(t0, t, e, table, NodeType.Table)
    ensures var u := t.Unlinked(table);
            u.Valid() && |u.nodes| == |t.nodes| && u.level[table] == 0 && u.Kind(table).Table?
  {
    t.UnlinkKeeps(table);
    assert t.Unlinked(table).UpOk(table);
    assert SamePayload(t.nodes[table], t.Unlinked(table).nodes[table]);
  }

  lemma UndoneGrows(t0: Tree, u: Tree, e: NodeId, table: NodeId)
    requires t0.Valid() && u.Valid() && EdgesOk(u) && e < |t0.nodes| == table && |u.nodes| == table + 1
    requires u.kids == t0.kids + [[]] && u.level[table] == 0 && u.Kind(table).Table? && HostsBlocks(t0.Kind(e))
    requires forall x :: 0 <= x < |t0.nodes| ==> Same(t0, u, x)
    ensures Good(u, e, e) && BlockGrown(t0, u, e, t0.level[e] + 4)
  {
    hide EdgesOk;
    assert Same(t0, u, e);
  }

  lemma UndoneNode(t0: Tree, t: Tree, e: NodeId, table: NodeId, x: NodeId)
    requires Markdown.Added(t0, t, e, table, NodeType.Table) && x < |t0.nodes|
    ensures var u := t.Unlinked(table);
            |u.nodes| == |t.nodes| && |u.level| == |t.nodes| && Same(t0, u, x)
            && u.nodes[x].links == t0.nodes[x].links && u.Kind(x) == t0.Kind(x)
  {
    var u := t.Unlinked(table);
    t.UnlinkKeeps(table);
    UndoneKids(t0, t, e, table);
    assert Same(t0, t, x) && SamePayload(t.nodes[x], u.nodes[x]);
    OldNotUnderNew(t0, t, e, x, table);
    LinksFromKids(t0, u, x);
  }

  lemma UndoneKinds(t: Tree, table: NodeId)
    requires t.Valid() && table < |t.nodes|
    ensures var u := t.Unlinked(table);
            |u.nodes| == |t.nodes| && forall x :: 0 <= x < |t.nodes| ==> u.Kind(x) == t.Kind(x)
  {
    t.UnlinkKeeps(table);
    forall x | 0 <= x < |t.nodes| ensures t.Unlinked(table).Kind(x) == t.Kind(x) {
      assert SamePayload(t.nodes[x], t.Unlinked(table).nodes[x]);
    }
  }

  lemma UndoneKids(t0: Tree, t: Tree, e: NodeId, table: NodeId)
    requires Markdown.Added(t0, t, e, table, NodeType.Table)
    ensures t.Unlinked(table).kids == t0.kids + [[]]
  {
    var s := t0.kids[e] + [table];
    assert t.kids[e] == s;
    t.KidOf(e, table);
    assert t.KidsOk(e);
    assert s[|s| - 1] == table && s[IndexOf(s, table)] == table;
    assert IndexOf(s, table) == |s| - 1;
    assert Without(s, table) == t0.kids[e];
  }

  /** In a valid tree the links of a node follow from the child sequences. */
  lemma LinksFromKids(t: Tree, u: Tree, x: NodeId)
    requires t.Valid() && u.Valid() && x < |t.nodes| <= |u.nodes|
    requires t.Parent(x) == u.Parent(x)
    requires forall y :: 0 <= y < |t.nodes| ==> t.kids[y] == u.kids[y]
    ensures t.nodes[x].links == u.nodes[x].links
  {
    assert t.KidsOk(x) && u.KidsOk(x) && t.UpOk(x) && u.UpOk(x);
    if t.Parent(x).Some? {
      t.KidOf(t.Parent(x).value, x);
      u.KidOf(t.Parent(x).value, x);
    }
  }

  /** The header: on success the table has its head, its header row and an empty body. */
  method TableStart(m: Markdown, data: bytes, size: nat, columns: seq<CellAlign>, headerEnd: nat,
                    ghost t0: Tree, ghost e: NodeId, table: NodeId) returns (body: NodeId, ghost t3: Tree)
    requires m.Valid() && m.tip == table && 0 < headerEnd <= |data|
    requires Markdown.Added(t0, m.arena.T(), e, table, NodeType.Table)
    modifies m`tip, m`oldTip, m`allClosed, m.arena
    ensures m.Valid() && m.tip == body && TableSoFar(t0, m.arena.T(), e, table, body, m.tip, columns)
    ensures Grown(old(m.arena.T()), t3, table)
    ensures Gains(old(m.arena.T()), t3, table,
                  [Part(NodeType.TableHead, NoData, [RowOf(data[..headerEnd], columns, true)])])
    ensures Markdown.Added(t3, m.arena.T(), table, body, NodeType.TableBody) && m.arena.nodes[body].data == NoData
  {
    ghost var t1 := m.arena.T();
    hide TableSoFar, Building, Tree.Valid, EdgesOk, Grown, Gains, RowOf, Markdown.Added;
    var head := m.AddBlock(NodeType.TableHead, "", table);
    ghost var t2 := m.arena.T();
    var row := TableRow(m, data[..headerEnd], columns, true, head);
    t3 := m.arena.T();
    ghost var tip := m.tip;
    ghost var texts := CellTexts(data[..headerEnd], RowStart(data[..headerEnd]), |columns|);
    HeadShown(t1, t2, t3, table, head, row, tip, columns, texts, RowOf(data[..headerEnd], columns, true));
    TipUnderHead(t1, t2, t3, table, head, row, tip, columns, texts);
    body := m.AddBlock(NodeType.TableBody, "", table);
    HeadDone(t0, t1, t2, t3, m.arena.T(), e, table, head, row, body, tip, columns, texts);
  }

  lemma HeadShown(t1: Tree, t2: Tree, t3: Tree, table: NodeId, head: NodeId, row: NodeId, tip: NodeId,
                  columns: seq<CellAlign>, texts: seq<bytes>, part: Part)
    requires Markdown.Added(t1, t2, table, head, NodeType.TableHead) && t2.nodes[head].data == NoData
    requires Building(t2, t3, head, row, tip, columns, texts, true) && Gains(t2, t3, head, [part])
    ensures Grown(t1, t3, table) && Gains(t1, t3, table, [Part(NodeType.TableHead, NoData, [part])])
  {
    hide Gains;
    BuildingGrows(t2, t3, head, row, tip, columns, texts, true);
    GrownTrans(t1, t2, t3, table, head);
    GainsBox(t1, t2, t3, table, head, NodeType.TableHead, NoData, [part]);
  }

  /** The head, the body with its rows, and so the table. */
  lemma TableShown(t0: Tree, t1: Tree, t3: Tree, t4: Tree, u: Tree, e: NodeId, table: NodeId, body: NodeId, head: Part,
                   rows: seq<Part>)
    requires Markdown.Added(t0, t1, e, table, NodeType.Table) && t1.nodes[table].data == NoData
    requires Grown(t1, t3, table) && Gains(t1, t3, table, [head])
    requires Markdown.Added(t3, t4, table, body, NodeType.TableBody) && t4.nodes[body].data == NoData
    requires Grown(t4, u, body) && Gains(t4, u, body, rows)
    ensures Gains(t0, u, e, [Part(NodeType.Table, NoData, [head, Part(NodeType.TableBody, NoData, rows)])])
  {
    hide Gains;
    GainsBox(t3, t4, u, table, body, NodeType.TableBody, NoData, rows);
    GrownTrans(t3, t4, u, table, body);
    GrownSpares(t3, u, table);
    GainsMore(t1, t3, u, table, [head], [Part(NodeType.TableBody, NoData, rows)]);
    GrownTrans(t1, t3, u, table, table);
    assert [head] + [Part(NodeType.TableBody, NoData, rows)] == [head, Part(NodeType.TableBody, NoData, rows)];
    GainsBox(t0, t1, u, e, table, NodeType.Table, NoData, [head, Part(NodeType.TableBody, NoData, rows)]);
  }

  lemma TipUnderHead(t1: Tree, t2: Tree, t3: Tree, table: NodeId, head: NodeId, row: NodeId, tip: NodeId,
                     columns: seq<CellAlign>, texts: seq<bytes>)
    requires Markdown.Added(t1, t2, table, head, NodeType.TableHead) && t1.Kind(table).Table?
    requires Building(t2, t3, head, row, tip, columns, texts, true)
    ensures ClimbsTo(t3, tip, NodeType.TableBody, table)
  {
    assert Same(t1, t2, table) && Same(t2, t3, table) && Same(t2, t3, head);
    ClimbUp(t3, head, table, NodeType.TableBody, table);
    RowTipClimbs(t3, tip, row, head, NodeType.TableBody, table);
  }

  method ScanRow(data: bytes, i: nat) returns (pipe: bool, next: nat)
    requires i < |data|
    ensures pipe == ('|' in data[i..LineEnd(data, i)]) && next == NextLine(data, i)
  {
    var k := i;
    pipe := false;
    while k < |data| && data[k] != '\n'
      invariant i <= k <= |data| && pipe == ('|' in data[i..k])
      invariant forall j :: i <= j < k ==> data[j] != '\n'
    {
      SliceGrows(data, i, k);
      if data[k] == '|' { pipe := true; }
      k := k + 1;
    }
    SkipUnique(data, i, Not('\n'), k);
    next := if k < |data| then k + 1 else k;
  }

  /** A whole table is the new last child of `e`. */
  ghost predicate TableBuilt(t0: Tree, t: Tree, e: NodeId, columns: seq<CellAlign>) {
    && t.Valid() && e < |t0.kids| && e < |t.kids|
    && t.kids[e] == t0.kids[e] + [|t0.nodes|] && TableShape(t, |t0.nodes|, columns)
  }

  /** Only a detached node is left behind. */
  ghost predicate LinksKept(t0: Tree, t: Tree) {
    && t.kids == t0.kids + [[]] && |t.nodes| == |t0.nodes| + 1
    && (forall x :: 0 <= x < |t0.nodes| ==> t.nodes[x].links == t0.nodes[x].links)
  }

  method AddTable(m: Markdown, ghost e: NodeId) returns (table: NodeId)
    requires Ready(m, e)
    modifies m`tip, m`oldTip, m`allClosed, m.arena
    ensures m.Valid() && !m.ext.definitionLists && m.nesting <= m.maxNesting && m.tip == table
    ensures table == |old(m.arena.nodes)| && HostsBlocks(old(m.arena.T()).Kind(e))
    ensures Markdown.Added(old(m.arena.T()), m.arena.T(), e, table, NodeType.Table)
    ensures m.arena.nodes[table].data == NoData
  {
    BlockClimbs(m.arena.T(), m.tip, NodeType.Table, e);
    hide Tree.Valid, EdgesOk, Grown, ClimbsTo, TipBelow;
    table := m.AddBlock(NodeType.Table, "", e);
  }

  /** A whole table.  The node is added first and taken back if there is no header. */
  method Table(m: Markdown, data: bytes, ghost e: NodeId) returns (n: nat)
    requires Ready(m, e) && data != []
    modifies m`tip, m`oldTip, m`allClosed, m.arena
    ensures n == TableSize(data)
    ensures Ready(m, e) && BlockGrown(old(m.arena.T()), m.arena.T(), e, old(m.arena.level)[e] + 4)
    ensures n > 0 ==> TableBuilt(old(m.arena.T()), m.arena.T(), e, TableHead(data).value.1)
    ensures n > 0 ==> Gains(old(m.arena.T()), m.arena.T(), e, [TablePart(data)])
    ensures n == 0 ==> LinksKept(old(m.arena.T()), m.arena.T())
  {
    hide Gains, TablePart, TableHead, TableSize, TableBuilt, LinksKept, Ready, BlockGrown, RowsEnd, NextLine,
         Markdown.Valid, Markdown.Added, Tree.Valid, HostsBlocks;
    ghost var t0 := m.arena.T();
    ReadyRange(m, e);
    HeadFits(data);
    var table := AddTable(m, e);
    var size, columns, headerEnd := ScanHead(data);
    if size == 0 {
      n := TableFails(m, t0, e, table);
    } else {
      n := TableFinish(m, data, size, columns, headerEnd, t0, e, table);
    }
  }

  lemma HeadFits(data: bytes)
    requires data != []
    ensures NextLine(data, 0) <= |data|
    ensures TableHead(data) == None ==> TableSize(data) == 0
    ensures TableHead(data).Some? ==>
              0 < TableHead(data).value.0 <= |data| && TableSize(data) == RowsEnd(data, TableHead(data).value.0)
              && 0 < TableSize(data)
  {
    hide TableHead, RowsEnd;
  }

  method TableFinish(m: Markdown, data: bytes, size: nat, columns: seq<CellAlign>, headerEnd: nat,
                     ghost t0: Tree, ghost e: NodeId, table: NodeId) returns (n: nat)
    requires m.Valid() && !m.ext.definitionLists && m.nesting <= m.maxNesting
    requires m.tip == table && 0 < headerEnd <= |data| && size <= |data|
    requires Markdown.Added(t0, m.arena.T(), e, table, NodeType.Table) && HostsBlocks(t0.Kind(e))
    requires m.arena.nodes[table].data == NoData
    requires data != [] && TableHead(data) == Some((size, columns)) && headerEnd == NextLine(data, 0)
    modifies m`tip, m`oldTip, m`allClosed, m.arena
    ensures n == RowsEnd(data, size) && Ready(m, e)
    ensures BlockGrown(t0, m.arena.T(), e, t0.level[e] + 4)
    ensures TableBuilt(t0, m.arena.T(), e, columns) && Gains(t0, m.arena.T(), e, [TablePart(data)])
  {
    hide TableSoFar, TableBuilt, BlockGrown, Ready, RowsEnd, Markdown.Valid, Gains, Grown, RowOf, BodyRows,
         Markdown.Added, TableHead;
    ghost var t1 := m.arena.T();
    var body;
    ghost var t3;
    body, t3 := TableStart(m, data, size, columns, headerEnd, t0, e, table);
    ghost var t4 := m.arena.T();
    n := TableRows(m, data, size, columns, t0, e, table, body);
    TableShown(t0, t1, t3, t4, m.arena.T(), e, table, body,
               Part(NodeType.TableHead, NoData, [RowOf(data[..headerEnd], columns, true)]),
               BodyRows(data, size, columns));
  }

  method TableFails(m: Markdown, ghost t0: Tree, ghost e: NodeId, table: NodeId) returns (n: nat)
    requires m.Valid() && !m.ext.definitionLists && m.nesting <= m.maxNesting
    requires Markdown.Added(t0, m.arena.T(), e, table, NodeType.Table) && HostsBlocks(t0.Kind(e))
    modifies m`tip, m.arena
    ensures n == 0 && Ready(m, e) && BlockGrown(t0, m.arena.T(), e, t0.level[e] + 4)
    ensures LinksKept(t0, m.arena.T())
  {
    TableUndone(t0, m.arena.T(), e, table);
    UndoneKinds(m.arena.T(), table);
    hide Tree.Unlinked, TipBelow, Tree.Valid, BlockGrown, EdgesOk, Markdown.Added, LinksKept;
    m.tip := m.arena.nodes[table].links.parent.value;
    m.arena.Unlink(table);
    n := 0;
  }

  method TableRows(m: Markdown, data: bytes, size: nat, columns: seq<CellAlign>, ghost t0: Tree, ghost e: NodeId,
                   ghost table: NodeId, ghost body: NodeId) returns (n: nat)
    requires m.Valid() && !m.ext.definitionLists && m.nesting <= m.maxNesting && size <= |data|
    requires TableSoFar(t0, m.arena.T(), e, table, body, m.tip, columns) && HostsBlocks(t0.Kind(e))
    modifies m`tip, m`oldTip, m`allClosed, m.arena
    ensures n == RowsEnd(data, size) && Ready(m, e)
    ensures TableSoFar(t0, m.arena.T(), e, table, body, m.tip, columns)
    ensures BlockGrown(t0, m.arena.T(), e, t0.level[e] + 4)
    ensures TableBuilt(t0, m.arena.T(), e, columns)
    ensures Grown(old(m.arena.T()), m.arena.T(), body)
    ensures Gains(old(m.arena.T()), m.arena.T(), body, BodyRows(data, size, columns))
  {
    ghost var t := m.arena.T();
    ghost var rows: seq<Part> := [];
    RowsBegin(m, t0, e, table, body, columns);
    hide TableSoFar, Tree.Valid, EdgesOk, BlockGrown, TableBuilt, TipBelow, Gains, Grown, RowOf;
    assert [] + BodyRows(data, size, columns) == BodyRows(data, size, columns);
    var i := size;
    while i < |data|
      invariant size <= i <= |data| && RowsEnd(data, i) == RowsEnd(data, size)
      invariant m.Valid() && TableSoFar(t0, m.arena.T(), e, table, body, m.tip, columns)
      invariant Grown(t, m.arena.T(), body) && Gains(t, m.arena.T(), body, rows)
      invariant rows + BodyRows(data, i, columns) == BodyRows(data, size, columns)
      decreases |data| - i
    {
      var pipe, next := ScanRow(data, i);
      if !pipe { break; }
      ghost var u := m.arena.T();
      BodyRow(m, data[i..next], columns, t0, e, table, body);
      RowGained(t, u, m.arena.T(), body, rows, RowOf(data[i..next], columns, false));
      RowsJoin(rows, RowOf(data[i..next], columns, false), BodyRows(data, next, columns));
      rows := rows + [RowOf(data[i..next], columns, false)];
      i := next;
    }
    assert rows + [] == rows;
    TipUnderBody(t0, m.arena.T(), e, table, body, m.tip, columns);
    n := i;
  }

  lemma RowsBegin(m: Markdown, t0: Tree, e: NodeId, table: NodeId, body: NodeId, columns: seq<CellAlign>)
    requires TableSoFar(t0, m.arena.T(), e, table, body, m.tip, columns)
    ensures Grown(m.arena.T(), m.arena.T(), body) && Gains(m.arena.T(), m.arena.T(), body, [])
  {
  }

  lemma RowGained(t: Tree, u: Tree, v: Tree, body: NodeId, rows: seq<Part>, row: Part)
    requires Grown(t, u, body) && Gains(t, u, body, rows) && Grown(u, v, body) && Gains(u, v, body, [row])
    ensures Grown(t, v, body) && Gains(t, v, body, rows + [row])
  {
    hide Gains;
    GrownTrans(t, u, v, body, body);
    GrownSpares(u, v, body);
    GainsMore(t, u, v, body, rows, [row]);
  }

  lemma RowsJoin(a: seq<Part>, x: Part, b: seq<Part>)
    ensures a + ([x] + b) == (a + [x]) + b
  {
  }
}
