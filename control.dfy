// Controllers run over the nodes of a started lab: the status table printed
// to the console and the shutdown that terminates every node.

module Control {
  import opened Topology
  import opened Ipv4
  import opened Strconv

  // ---------------------------------------------------------------------------
  // Running nodes

  /** A started node: a hypervisor process, or an asset's network namespace. */
  datatype RunningNode = VMNode(node: Netnode) | AssetNode(node: Netnode)

  // ---------------------------------------------------------------------------
  // Cells of the status table

  const NameWidth: nat := 10
  const TypeWidth: nat := 10
  const AddrWidth: nat := 16
  /** Every line: four column borders and the three columns. */
  const Width: nat := 1 + NameWidth + 1 + TypeWidth + 1 + AddrWidth + 1

  function Repeat(c: char, n: nat): (s: string)
    ensures |s| == n
    ensures forall i :: 0 <= i < n ==> s[i] == c
  {
    if n == 0 then [] else [c] + Repeat(c, n - 1)
  }

  /**
   * `s` followed by spaces up to one byte less than the column width: the
   * padding count is computed from Go's `len`, which counts bytes.
   */
  function Pad(s: string, width: nat): (r: string)
    requires Utf8Len(s) < width
    ensures Utf8Len(r) == width - 1
    ensures |r| == |s| + (width - 1 - Utf8Len(s))
    ensures r[..|s|] == s
    ensures forall i :: |s| <= i < |r| ==> r[i] == ' '
  {
    var spaces := Repeat(' ', width - Utf8Len(s) - 1);
    AsciiLen(spaces);
    Utf8LenAppend(s, spaces);
    s + spaces
  }

  /** A node type's label in the table: non-empty, ASCII, and short enough for the type column. */
  function PrettyType(t: NodeType): (r: string)
    ensures 0 < |r| < TypeWidth && Utf8Len(r) == |r|
  {
    var text := (match t
      case Router => "router"
      case Switch => "switch"
      case Asset => "asset");
    AsciiLen(text);
    text
  }

  /** Each node type has its own label. */
  lemma PrettyTypeLabels(a: NodeType, b: NodeType)
    ensures PrettyType(a) == PrettyType(b) <==> a == b
  {
  }

  const Border: string :=
    "+" + Repeat('-', NameWidth) + "+" + Repeat('-', TypeWidth) + "+" + Repeat('-', AddrWidth) + "+"
  const Title: string := "+   name   |   type   |    addresses   +"
  /** The address cell of a node without interfaces. */
  const NoAddrCell: string := "                |"
  /** Blank name and type cells of a node's further addresses. */
  const Gutter: string := "+          |          |"

  /** The fixed lines and cells are ASCII, so each is as many bytes long as it has characters. */
  lemma FixedWidths()
    ensures |Border| == Width && Utf8Len(Border) == Width && Utf8Len(Title) == Width
    ensures |Gutter| == 23 && Utf8Len(Gutter) == 23 && Utf8Len(NoAddrCell) == 17
  {
    BorderWidth();
    TitleWidth();
    GutterWidth();
    NoAddrCellWidth();
  }

  lemma BorderWidth()
    ensures |Border| == Width && Utf8Len(Border) == Width
  {
    AsciiLen(Border);
  }

  lemma TitleWidth()
    ensures Utf8Len(Title) == Width
  {
    AsciiLen(Title);
  }

  lemma GutterWidth()
    ensures |Gutter| == 23 && Utf8Len(Gutter) == 23
  {
    AsciiLen(Gutter);
  }

  lemma NoAddrCellWidth()
    ensures Utf8Len(NoAddrCell) == 17
  {
    AsciiLen(NoAddrCell);
  }

  /** What the table shows of one node: its name, type and interface addresses. */
  datatype Row = Row(name: string, kind: NodeType, addrs: seq<string>)

  /**
   * The name and every address leave room for the padding, in bytes
   * (otherwise the padding count is negative and the program panics).
   */
  predicate Fits(r: Row) {
    Utf8Len(r.name) < NameWidth && forall a <- r.addrs :: Utf8Len(a) < AddrWidth
  }

  predicate AllFit(rows: seq<Row>) {
    forall r <- rows :: Fits(r)
  }

  lemma PrefixFits(rows: seq<Row>, i: nat)
    requires AllFit(rows) && i <= |rows|
    ensures AllFit(rows[..i])
  {
    assert forall r <- rows[..i] :: r in rows;
  }

  lemma SnocParts<T>(a: seq<T>, b: seq<T>)
    requires b != []
    ensures (a + b)[..|a + b| - 1] == a + b[..|b| - 1]
    ensures (a + b)[|a + b| - 1] == b[|b| - 1]
  {
  }

  /** A slice of `p + c` that lies within `c`. */
  lemma SliceAfter<T>(p: seq<T>, c: seq<T>, i: nat, k: nat)
    requires i <= k <= |c|
    ensures (p + c)[|p| + i..|p| + k] == c[i..k]
  {
  }

  /**
   * One cell as the program prints it: a lead, the text padded to one byte
   * less than the column width, and the closing border.
   */
  function Cell(lead: string, s: string, width: nat): (c: string)
    requires Utf8Len(s) < width
    ensures Utf8Len(c) == Utf8Len(lead) + width
    ensures |c| == |lead| + |s| + (width - 1 - Utf8Len(s)) + 1
  {
    var p := Pad(s, width);
    Utf8LenAppend(lead, p);
    Utf8LenAppend(lead + p, "|");
    lead + p + "|"
  }

  /** Everything of a cell before its border takes one byte less than the cell. */
  lemma CellBeforeBorder(lead: string, s: string, width: nat)
    requires Utf8Len(s) < width
    ensures var c := Cell(lead, s, width);
      Utf8Len(c[..|c| - 1]) == Utf8Len(lead) + width - 1
  {
    var p := Pad(s, width);
    var c := lead + p + "|";
    assert c[..|c| - 1] == lead + p;
    Utf8LenAppend(lead, p);
  }

  /** A cell shows its lead, then its text, then spaces up to the closing border. */
  lemma CellLayout(lead: string, s: string, width: nat)
    requires Utf8Len(s) < width
    ensures var c := Cell(lead, s, width);
      c[..|lead|] == lead && c[|lead|..|lead| + |s|] == s &&
      (forall i :: |lead| + |s| <= i < |c| - 1 ==> c[i] == ' ') && c[|c| - 1] == '|'
  {
    var p := Pad(s, width);
    CatParts(lead, p, '|', |s|);
  }

  /** Where the parts of `a + b + [x]` sit, `b`'s first `k` elements included. */
  lemma CatParts<T>(a: seq<T>, b: seq<T>, x: T, k: nat)
    requires k <= |b|
    ensures var c := a + b + [x];
      c[..|a|] == a && c[|a|..|a| + k] == b[..k] && c[|c| - 1] == x &&
      forall i :: |a| + k <= i < |c| - 1 ==> c[i] == b[i - |a|]
  {
  }

  /** A node's name and type cells. */
  function Head(r: Row): string
    requires Fits(r)
  {
    Cell("+ ", r.name, NameWidth) + Cell(" ", PrettyType(r.kind), TypeWidth)
  }

  function AddrCell(a: string): string
    requires Utf8Len(a) < AddrWidth
  {
    Cell(" ", a, AddrWidth)
  }

  /** Lines for the addresses after the first; the leading space of each cell is the one Println puts between its operands. */
  function MoreLines(addrs: seq<string>): seq<string>
    requires forall a <- addrs :: Utf8Len(a) < AddrWidth
  {
    seq(|addrs|, k requires 0 <= k < |addrs| => Gutter + AddrCell(addrs[k]))
  }

  /** The lines of one node: its first address on the node's own line, each further one on a line of its own. */
  function RowLines(r: Row): seq<string>
    requires Fits(r)
  {
    if r.addrs == [] then [Head(r) + NoAddrCell]
    else [Head(r) + AddrCell(r.addrs[0])] + MoreLines(r.addrs[1..])
  }

  function BodyLines(rows: seq<Row>): seq<string>
    requires AllFit(rows)
  {
    if rows == [] then [] else BodyLines(rows[..|rows| - 1]) + RowLines(rows[|rows| - 1])
  }

  /** The whole table: border, title, border, the nodes in order, border. */
  function TableLines(rows: seq<Row>): seq<string>
    requires AllFit(rows)
  {
    [Border, Title, Border] + BodyLines(rows) + [Border]
  }

  // ---------------------------------------------------------------------------
  // Properties of the table

  /** The name and type cells of a node take 23 bytes. */
  lemma HeadWidth(r: Row)
    requires Fits(r)
    ensures Utf8Len(Head(r)) == 1 + NameWidth + 1 + TypeWidth + 1
  {
    Utf8LenAppend(Cell("+ ", r.name, NameWidth), Cell(" ", PrettyType(r.kind), TypeWidth));
  }

  /** An address cell takes 17 bytes: a space, the padded address and the border. */
  lemma AddrCellWidth(a: string)
    requires Utf8Len(a) < AddrWidth
    ensures Utf8Len(AddrCell(a)) == 1 + AddrWidth
  {
  }

  /**
   * A name with a two-byte character gets one padding space fewer than its
   * character count suggests: "rüter" is five characters but six bytes.
   */
  lemma MultiBytePadding()
    ensures |"rüter"| == 5 && Utf8Len("rüter") == 6
    ensures |Pad("rüter", NameWidth)| == 8 && Utf8Len(Pad("rüter", NameWidth)) == 9
  {
    assert "rüter" == "r" + "ü" + "ter";
    Utf8LenAppend("r" + "ü", "ter");
    Utf8LenAppend("r", "ü");
    AsciiLen("r");
    AsciiLen("ter");
    assert Utf8Len("ü") == Utf8Len([]) + Utf8Width('ü') == 2;
  }

  /** A node takes as many lines as it has interfaces, and one line when it has none. */
  lemma RowLinesCount(r: Row)
    requires Fits(r)
    ensures |RowLines(r)| == if r.addrs == [] then 1 else |r.addrs|
  {
  }

  /** A 23-byte prefix and a 17-byte cell make a full-width line. */
  lemma LineWidth(prefix: string, cell: string)
    requires Utf8Len(prefix) == 23 && Utf8Len(cell) == 1 + AddrWidth
    ensures Utf8Len(prefix + cell) == Width
  {
    Utf8LenAppend(prefix, cell);
  }

  /** Line `k` of a node's group, after the first, shows its `k`-th address behind blank cells. */
  lemma MoreLineAt(r: Row, k: nat)
    requires Fits(r) && 1 <= k < |r.addrs|
    ensures k < |RowLines(r)| && RowLines(r)[k] == Gutter + AddrCell(r.addrs[k])
  {
    var more := MoreLines(r.addrs[1..]);
    assert RowLines(r) == [Head(r) + AddrCell(r.addrs[0])] + more;
    assert RowLines(r)[k] == more[k - 1];
    assert r.addrs[1..][k - 1] == r.addrs[k];
  }

  /** Every line of a node's group is exactly as many bytes long as the table is wide. */
  lemma RowLinesWidth(r: Row)
    requires Fits(r)
    ensures forall k :: 0 <= k < |RowLines(r)| ==> Utf8Len(RowLines(r)[k]) == Width
  {
    HeadWidth(r);
    var ls := RowLines(r);
    forall k | 0 <= k < |ls|
      ensures Utf8Len(ls[k]) == Width
    {
      if r.addrs == [] {
        NoAddrCellWidth();
        LineWidth(Head(r), NoAddrCell);
      } else if k == 0 {
        LineWidth(Head(r), AddrCell(r.addrs[0]));
      } else {
        MoreLineAt(r, k);
        GutterWidth();
        LineWidth(Gutter, AddrCell(r.addrs[k]));
      }
    }
  }

  lemma {:induction false} BodyLinesWidth(rows: seq<Row>)
    requires AllFit(rows)
    ensures forall k :: 0 <= k < |BodyLines(rows)| ==> Utf8Len(BodyLines(rows)[k]) == Width
  {
    if rows != [] {
      var init, last := rows[..|rows| - 1], rows[|rows| - 1];
      PrefixFits(rows, |rows| - 1);
      BodyLinesWidth(init);
      RowLinesWidth(last);
      WidthsAppend(BodyLines(init), RowLines(last), Width);
    }
  }

  lemma WidthsAppend(a: seq<string>, b: seq<string>, w: nat)
    requires forall k :: 0 <= k < |a| ==> Utf8Len(a[k]) == w
    requires forall k :: 0 <= k < |b| ==> Utf8Len(b[k]) == w
    ensures forall k :: 0 <= k < |a + b| ==> Utf8Len((a + b)[k]) == w
  {
    forall k | 0 <= k < |a + b|
      ensures Utf8Len((a + b)[k]) == w
    {
      if k >= |a| {
        assert (a + b)[k] == b[k - |a|];
      }
    }
  }

  /** Every line of the table is exactly `Width` bytes long, as the console shows it. */
  lemma TableWidth(rows: seq<Row>)
    requires AllFit(rows)
    ensures Width == 40
    ensures forall k :: 0 <= k < |TableLines(rows)| ==> Utf8Len(TableLines(rows)[k]) == Width
  {
    FixedWidths();
    BodyLinesWidth(rows);
    var b := BodyLines(rows);
    var t := TableLines(rows);
    forall k | 0 <= k < |t|
      ensures Utf8Len(t[k]) == Width
    {
      if 3 <= k < 3 + |b| {
        assert t[k] == b[k - 3];
      }
    }
  }

  /** The table holds four fixed lines plus each node's group, groups appearing in node order. */
  lemma {:induction false} BodyLinesAppend(a: seq<Row>, b: seq<Row>)
    requires AllFit(a)
    requires AllFit(b)
    ensures BodyLines(a + b) == BodyLines(a) + BodyLines(b)
    decreases |b|
  {
    if b == [] {
      assert a + b == a;
    } else {
      var init, last := b[..|b| - 1], b[|b| - 1];
      PrefixFits(b, |b| - 1);
      SnocParts(a, b);
      BodyLinesAppend(a, init);
      assert BodyLines(a + b) == BodyLines(a + init) + RowLines(last);
      Assoc(BodyLines(a), BodyLines(init), RowLines(last));
    }
  }

  /**
   * A node's first line starts with "+ ", its name and spaces up to the
   * border at byte 11, then "| ", its type and spaces up to the border at
   * byte 22. Character `m` is that first border: a name with characters of
   * several bytes gets fewer padding spaces.
   */
  lemma HeadCells(r: Row)
    requires Fits(r)
    ensures var h, t, m := Head(r), PrettyType(r.kind), 2 + |r.name| + (NameWidth - 1 - Utf8Len(r.name));
      |h| == m + 12 && Utf8Len(h) == 23 && Utf8Len(h[..m]) == 11 &&
      h[..2] == "+ " && h[2..2 + |r.name|] == r.name &&
      (forall i :: 2 + |r.name| <= i < m ==> h[i] == ' ') &&
      h[m..m + 2] == "| " && h[m + 2..m + 2 + |t|] == t &&
      (forall i :: m + 2 + |t| <= i < m + 11 ==> h[i] == ' ') && h[m + 11] == '|'
  {
    HeadBytes(r);
    HeadNameCell(r);
    HeadTypeCell(r);
  }

  lemma HeadBytes(r: Row)
    requires Fits(r)
    ensures var h, m := Head(r), 2 + |r.name| + (NameWidth - 1 - Utf8Len(r.name));
      |h| == m + 12 && Utf8Len(h) == 23 && Utf8Len(h[..m]) == 11
  {
    HeadWidth(r);
    var c1 := Cell("+ ", r.name, NameWidth);
    var m := |c1| - 1;
    CellBeforeBorder("+ ", r.name, NameWidth);
    assert Head(r)[..m] == c1[..m];
  }

  lemma HeadNameCell(r: Row)
    requires Fits(r)
    ensures var h, m := Head(r), 2 + |r.name| + (NameWidth - 1 - Utf8Len(r.name));
      m < |h| && h[..2] == "+ " && h[2..2 + |r.name|] == r.name &&
      (forall i :: 2 + |r.name| <= i < m ==> h[i] == ' ') && h[m] == '|'
  {
    var c1 := Cell("+ ", r.name, NameWidth);
    CellLayout("+ ", r.name, NameWidth);
    var h := Head(r);
    assert h[..|c1|] == c1;
    assert h[..2] == c1[..2];
    assert h[2..2 + |r.name|] == c1[2..2 + |r.name|];
  }

  lemma HeadTypeCell(r: Row)
    requires Fits(r)
    ensures var h, t, m := Head(r), PrettyType(r.kind), 2 + |r.name| + (NameWidth - 1 - Utf8Len(r.name));
      m + 11 < |h| && h[m + 1] == ' ' && h[m + 2..m + 2 + |t|] == t &&
      (forall i :: m + 2 + |t| <= i < m + 11 ==> h[i] == ' ') && h[m + 11] == '|'
  {
    var t := PrettyType(r.kind);
    var c1, c2 := Cell("+ ", r.name, NameWidth), Cell(" ", t, TypeWidth);
    CellLayout(" ", t, TypeWidth);
    var h := Head(r);
    var m := |c1| - 1;
    assert h == c1 + c2;
    SliceAfter(c1, c2, 1, 1 + |t|);
    forall i | m + 2 + |t| <= i < m + 11
      ensures h[i] == ' '
    {
      assert h[i] == c2[i - m - 1];
    }
  }

  /**
   * Line `l` shows address `a` in its last column: character `j`, which is
   * byte 23 of the line, is the cell's leading space, then come the
   * address, spaces, and the closing border; the line is 40 bytes long.
   */
  predicate ShowsAddrAt(l: string, j: nat, a: string) {
    j + 1 + |a| < |l| && Utf8Len(l) == Width && Utf8Len(l[..j]) == 23 &&
    l[j] == ' ' && l[j + 1..j + 1 + |a|] == a &&
    (forall i :: j + 1 + |a| <= i < |l| - 1 ==> l[i] == ' ') && l[|l| - 1] == '|'
  }

  lemma AddrCellText(prefix: string, a: string)
    requires Utf8Len(prefix) == 23 && Utf8Len(a) < AddrWidth
    ensures (prefix + AddrCell(a))[..|prefix|] == prefix
    ensures ShowsAddrAt(prefix + AddrCell(a), |prefix|, a)
  {
    AddrCellStart(prefix, a);
    AddrCellEnd(prefix, a);
    LineWidth(prefix, AddrCell(a));
  }

  lemma AddrCellStart(prefix: string, a: string)
    requires Utf8Len(a) < AddrWidth
    ensures var l, j := prefix + AddrCell(a), |prefix|;
      j + 1 + |a| < |l| && l[..j] == prefix && l[j] == ' ' && l[j + 1..j + 1 + |a|] == a
  {
    var c := AddrCell(a);
    CellLayout(" ", a, AddrWidth);
    assert (prefix + c)[..|prefix|] == prefix;
    assert (prefix + c)[|prefix|] == c[0];
    SliceAfter(prefix, c, 1, 1 + |a|);
  }

  lemma AddrCellEnd(prefix: string, a: string)
    requires Utf8Len(a) < AddrWidth
    ensures var l, j := prefix + AddrCell(a), |prefix|;
      (forall i :: j + 1 + |a| <= i < |l| - 1 ==> l[i] == ' ') && l[|l| - 1] == '|'
  {
    var c := AddrCell(a);
    CellLayout(" ", a, AddrWidth);
    var l, j := prefix + c, |prefix|;
    forall i | j + 1 + |a| <= i < |l| - 1
      ensures l[i] == ' '
    {
      assert l[i] == c[i - j];
    }
  }

  /** A further address of a node has a line of its own with blank name and type cells. */
  lemma MoreLineLayout(r: Row, k: nat)
    requires Fits(r) && 1 <= k < |r.addrs|
    ensures k < |RowLines(r)|
    ensures RowLines(r)[k][..24] == Gutter + " "
    ensures ShowsAddrAt(RowLines(r)[k], 23, r.addrs[k])
  {
    GutterWidth();
    MoreLineAt(r, k);
    AddrCellText(Gutter, r.addrs[k]);
    assert (Gutter + AddrCell(r.addrs[k]))[..24] == Gutter + " ";
  }

  /**
   * The k-th address of a node is on the k-th line of its group, from byte
   * 24; the first line carries the node's name and type, every further line
   * blank name and type cells; a node without interfaces has a blank
   * address cell.
   */
  lemma RowLinesLayout(r: Row)
    requires Fits(r)
    ensures |RowLines(r)| >= 1 && RowLines(r)[0][..|Head(r)|] == Head(r)
    ensures r.addrs == [] ==> RowLines(r)[0][|Head(r)|..] == NoAddrCell
    ensures r.addrs != [] ==> ShowsAddrAt(RowLines(r)[0], |Head(r)|, r.addrs[0])
    ensures forall k :: 1 <= k < |r.addrs| ==> k < |RowLines(r)| && ShowsAddrAt(RowLines(r)[k], 23, r.addrs[k])
    ensures forall k :: 1 <= k < |RowLines(r)| ==> RowLines(r)[k][..24] == Gutter + " "
  {
    HeadWidth(r);
    var ls := RowLines(r);
    if r.addrs == [] {
      assert ls[0] == Head(r) + NoAddrCell;
    } else {
      AddrCellText(Head(r), r.addrs[0]);
      forall k | 1 <= k < |r.addrs| {
        MoreLineLayout(r, k);
      }
    }
  }

  // ---------------------------------------------------------------------------
  // What the table is built from

  /** The interface addresses in interface order, as the table prints them. */
  function Addrs(ifcs: seq<Iface>, show: Addr -> string): (r: seq<string>)
    ensures |r| == |ifcs|
  {
    seq(|ifcs|, k requires 0 <= k < |ifcs| => show(ifcs[k].addr))
  }

  function RowOf(n: RunningNode, show: Addr -> string): Row
    reads n.node
  {
    Row(n.node.name, n.node.kind, Addrs(n.node.ifcs, show))
  }

  function Nodes(ns: seq<RunningNode>): set<Netnode> {
    set n <- ns :: n.node
  }

  function Rows(ns: seq<RunningNode>, show: Addr -> string): (r: seq<Row>)
    reads Nodes(ns)
    ensures |r| == |ns|
  {
    seq(|ns|, k requires 0 <= k < |ns| reads Nodes(ns) => RowOf(ns[k], show))
  }

  // ---------------------------------------------------------------------------
  // The console

  /** What the console receives: whole lines, and the closing of the done channel. */
  datatype Output = Line(text: string) | DoneClosed

  function Emit(ls: seq<string>): (r: seq<Output>)
    ensures |r| == |ls|
    ensures forall k :: 0 <= k < |ls| ==> r[k] == Line(ls[k])
  {
    seq(|ls|, k requires 0 <= k < |ls| => Line(ls[k]))
  }

  /** The done channel is closed once, after the last line of the table. */
  lemma DoneClosedLast(ls: seq<string>)
    ensures var o := Emit(ls) + [DoneClosed];
      forall k :: 0 <= k < |o| ==> (o[k] == DoneClosed <==> k == |ls|)
  {
  }

  class Console {
    var out: seq<Output>

    constructor ()
      ensures out == []
    {
      out := [];
    }

    method WriteLine(s: string)
      modifies this
      ensures out == old(out) + [Line(s)]
    {
      out := out + [Line(s)];
    }

    /** Prints one node's group of lines. */
    method WriteRow(r: Row)
      requires Fits(r)
      modifies this
      ensures out == old(out) + Emit(RowLines(r))
    {
      var head := Cell("+ ", r.name, NameWidth) + Cell(" ", PrettyType(r.kind), TypeWidth);
      assert head == Head(r);
      if |r.addrs| > 0 {
        var first := head + AddrCell(r.addrs[0]);
        ghost var more := MoreLines(r.addrs[1..]);
        WriteLine(first);
        ghost var mid := out;
        WriteMoreLines(r.addrs);
        assert out == mid + Emit(more);
        assert Emit([first]) == [Line(first)];
        EmitAppend([first], more);
        Assoc(old(out), Emit([first]), Emit(more));
        assert RowLines(r) == [first] + more;
      } else {
        WriteLine(head + NoAddrCell);
        assert RowLines(r) == [head + NoAddrCell];
      }
    }

    /** Prints a line for each address after the first, behind blank name and type cells. */
    method WriteMoreLines(addrs: seq<string>)
      requires |addrs| >= 1 && forall a <- addrs :: Utf8Len(a) < AddrWidth
      modifies this
      ensures out == old(out) + Emit(MoreLines(addrs[1..]))
    {
      var j := 1;
      while j < |addrs|
        invariant 1 <= j <= |addrs|
        invariant out == old(out) + Emit(MoreLines(addrs[1..j]))
      {
        WriteLine(Gutter + AddrCell(addrs[j]));
        EmitMoreStep(addrs, j);
        j := j + 1;
      }
      assert addrs[1..j] == addrs[1..];
    }

    /**
     * Prints the status table of the running nodes, one group of lines per
     * node in the order given, then closes the done channel.
     */
    method FormatTable(running: seq<RunningNode>, show: Addr -> string)
      requires DoneClosed !in out
      requires forall n <- running :: Fits(RowOf(n, show))
      modifies this
      ensures AllFit(old(Rows(running, show)))
      ensures out == old(out) + Emit(TableLines(old(Rows(running, show)))) + [DoneClosed]
    {
      var rows := Rows(running, show);
      RowsFit(running, show);
      WriteLine(Border);
      WriteLine(Title);
      WriteLine(Border);
      var i := 0;
      while i < |rows|
        invariant 0 <= i <= |rows|
        invariant AllFit(rows[..i])
        invariant out == old(out) + Emit([Border, Title, Border] + BodyLines(rows[..i]))
      {
        WriteRow(rows[i]);
        RowStep(old(out), rows, i);
        i := i + 1;
      }
      WriteLine(Border);
      Footer(old(out), rows, i);
      out := out + [DoneClosed];
    }
  }

  lemma RowsFit(running: seq<RunningNode>, show: Addr -> string)
    requires forall n <- running :: Fits(RowOf(n, show))
    ensures AllFit(Rows(running, show))
  {
    var rows := Rows(running, show);
    forall r <- rows
      ensures Fits(r)
    {
      var k :| 0 <= k < |rows| && rows[k] == r;
      assert running[k] in running;
    }
  }

  /** After the header and the first `i` groups, writing the next group gives the first `i + 1`. */
  lemma RowStep(start: seq<Output>, rows: seq<Row>, i: nat)
    requires i < |rows| && AllFit(rows) && AllFit(rows[..i])
    ensures AllFit(rows[..i + 1])
    ensures start + Emit([Border, Title, Border] + BodyLines(rows[..i])) + Emit(RowLines(rows[i]))
      == start + Emit([Border, Title, Border] + BodyLines(rows[..i + 1]))
  {
    NextRow(rows, i);
    Assoc([Border, Title, Border], BodyLines(rows[..i]), RowLines(rows[i]));
    EmitAppend([Border, Title, Border] + BodyLines(rows[..i]), RowLines(rows[i]));
  }

  lemma Footer(start: seq<Output>, rows: seq<Row>, i: nat)
    requires i == |rows| && AllFit(rows) && AllFit(rows[..i])
    ensures start + Emit([Border, Title, Border] + BodyLines(rows[..i])) + [Line(Border)]
      == start + Emit(TableLines(rows))
  {
    assert rows[..i] == rows;
    EmitAppend([Border, Title, Border] + BodyLines(rows), [Border]);
  }

  lemma NextRow(rows: seq<Row>, i: nat)
    requires i < |rows| && AllFit(rows[..i]) && Fits(rows[i])
    ensures AllFit(rows[..i + 1])
    ensures BodyLines(rows[..i + 1]) == BodyLines(rows[..i]) + RowLines(rows[i])
  {
    assert rows[..i + 1] == rows[..i] + [rows[i]];
    assert rows[..i + 1][..i] == rows[..i];
  }

  lemma MoreLinesSnoc(addrs: seq<string>, j: nat)
    requires 1 <= j < |addrs|
    requires forall a <- addrs :: Utf8Len(a) < AddrWidth
    ensures forall a <- addrs[1..j] :: Utf8Len(a) < AddrWidth
    ensures MoreLines(addrs[1..j + 1]) == MoreLines(addrs[1..j]) + [Gutter + AddrCell(addrs[j])]
  {
    assert forall a <- addrs[1..j + 1] :: a in addrs;
    assert addrs[1..j + 1] == addrs[1..j] + [addrs[j]];
  }

  /** Printing a further address line extends the group's further lines by that line. */
  lemma EmitMoreStep(addrs: seq<string>, j: nat)
    requires 1 <= j < |addrs|
    requires forall a <- addrs :: Utf8Len(a) < AddrWidth
    ensures forall a <- addrs[1..j] :: Utf8Len(a) < AddrWidth
    ensures Emit(MoreLines(addrs[1..j])) + [Line(Gutter + AddrCell(addrs[j]))] == Emit(MoreLines(addrs[1..j + 1]))
  {
    MoreLinesSnoc(addrs, j);
    EmitAppend(MoreLines(addrs[1..j]), [Gutter + AddrCell(addrs[j])]);
  }

  lemma EmitAppend(a: seq<string>, b: seq<string>)
    ensures Emit(a + b) == Emit(a) + Emit(b)
  {
  }

  // ---------------------------------------------------------------------------
  // Shutdown

  /** Nodes whose close failed, in the order they were closed. */
  function Failed(ns: seq<RunningNode>, fails: RunningNode -> bool): seq<RunningNode> {
    if ns == [] then []
    else Failed(ns[..|ns| - 1], fails) + (if fails(ns[|ns| - 1]) then [ns[|ns| - 1]] else [])
  }

  /** A node is warned about exactly when it is one of the nodes and its close failed. */
  lemma {:induction false} FailedMembers(ns: seq<RunningNode>, fails: RunningNode -> bool)
    ensures |Failed(ns, fails)| <= |ns|
    ensures forall n :: n in Failed(ns, fails) <==> n in ns && fails(n)
  {
    if ns != [] {
      var init := ns[..|ns| - 1];
      FailedMembers(init, fails);
      assert ns == init + [ns[|ns| - 1]];
    }
  }

  /** Closing a list in two parts warns about the failures of each part, in order. */
  lemma {:induction false} FailedAppend(a: seq<RunningNode>, b: seq<RunningNode>, fails: RunningNode -> bool)
    ensures Failed(a + b, fails) == Failed(a, fails) + Failed(b, fails)
    decreases |b|
  {
    if b == [] {
      assert a + b == a;
    } else {
      var init := b[..|b| - 1];
      assert (a + b)[..|a + b| - 1] == a + init;
      FailedAppend(a, init, fails);
    }
  }

  /** The effects of shutting a lab down: the close calls made and the warnings logged. */
  class Shutdown {
    var closed: seq<RunningNode>
    var warnings: seq<RunningNode>

    constructor ()
      ensures closed == [] && warnings == []
    {
      closed := [];
      warnings := [];
    }

    /**
     * Closes every node once, in order; a failing close is logged as a
     * warning and does not stop the others, and no error is returned.
     */
    method TermLab(nss: seq<RunningNode>, fails: RunningNode -> bool)
      modifies this
      ensures closed == old(closed) + nss
      ensures warnings == old(warnings) + Failed(nss, fails)
    {
      var i := 0;
      while i < |nss|
        invariant 0 <= i <= |nss|
        invariant closed == old(closed) + nss[..i]
        invariant warnings == old(warnings) + Failed(nss[..i], fails)
      {
        var node := nss[i];
        closed := closed + [node];
        if fails(node) {
          warnings := warnings + [node];
        }
        assert nss[..i + 1][..i] == nss[..i];
        i := i + 1;
      }
      assert nss[..i] == nss;
    }
  }
}
