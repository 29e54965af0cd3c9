/** The two readers of graph6 text: the lab's own, and the stricter one of the cycle checker. */
module Graph6Parsers {
  import opened Outcomes
  import opened Graphs
  import opened Graph6

  datatype ParseError =
    | EmptyInput | LargeOrderForm | NegativeOrder | ByteOutOfRange | Truncated | TrailingData | PaddingNotZero
    | TooManyForChecker

  datatype Order = Order(n: int, offset: nat)

  const HEADER: Bytes := [62, 62, 103, 114, 97, 112, 104, 54, 60, 60]
  const BLANK := {9, 10, 11, 12, 13, 32}
  const LINE_END := {10, 13}

  // ---------- the text between the blanks and after the header ----------

  function TrimEnd(raw: Bytes, drop: set<int>): (s: Bytes)
    ensures s <= raw
  {
    if raw != [] && raw[|raw| - 1] in drop then TrimEnd(raw[..|raw| - 1], drop) else raw
  }

  function TrimStart(raw: Bytes, drop: set<int>): Bytes {
    if raw != [] && raw[0] in drop then TrimStart(raw[1..], drop) else raw
  }

  function WithoutHeader(raw: Bytes): Bytes {
    if HEADER <= raw then raw[10..] else raw
  }

  function LabText(raw: Bytes): Bytes {
    WithoutHeader(TrimEnd(TrimStart(raw, BLANK), BLANK))
  }

  function CheckerText(raw: Bytes): Bytes {
    WithoutHeader(TrimEnd(raw, LINE_END))
  }

  lemma {:induction false} TrimEndIs(raw: Bytes, drop: set<int>)
    ensures var s := TrimEnd(raw, drop);
      && s == raw[..|s|] && (forall k :: |s| <= k < |raw| ==> raw[k] in drop)
      && (s != [] ==> s[|s| - 1] !in drop)
  {
    if raw != [] && raw[|raw| - 1] in drop {
      TrimEndIs(raw[..|raw| - 1], drop);
    }
  }

  lemma {:induction false} TrimStartIs(raw: Bytes, drop: set<int>)
    ensures var s := TrimStart(raw, drop);
      && |s| <= |raw| && s == raw[|raw| - |s|..] && (forall k :: 0 <= k < |raw| - |s| ==> raw[k] in drop)
      && (s != [] ==> s[0] !in drop)
  {
    if raw != [] && raw[0] in drop {
      TrimStartIs(raw[1..], drop);
      var s := TrimStart(raw, drop);
      assert raw[1..][|raw| - 1 - |s|..] == raw[|raw| - |s|..];
      forall k | 0 <= k < |raw| - |s|
        ensures raw[k] in drop
      {
        assert k > 0 ==> raw[k] == raw[1..][k - 1];
      }
    }
  }

  /** The text the lab parses: what stands between the blanks around it (tab, line feed, vertical tab, form feed,
      carriage return, space), less the header if it has one. */
  lemma LabTextIs(raw: Bytes) returns (i: nat, j: nat)
    ensures i <= j <= |raw|
    ensures forall k :: 0 <= k < |raw| && !(i <= k < j) ==> raw[k] in {9, 10, 11, 12, 13, 32}
    ensures i < j ==> raw[i] !in {9, 10, 11, 12, 13, 32} && raw[j - 1] !in {9, 10, 11, 12, 13, 32}
    ensures LabText(raw) == if [62, 62, 103, 114, 97, 112, 104, 54, 60, 60] <= raw[i..j] then raw[i..j][10..]
                            else raw[i..j]
  {
    var s := TrimStart(raw, BLANK);
    var t := TrimEnd(s, BLANK);
    TrimStartIs(raw, BLANK);
    TrimEndIs(s, BLANK);
    hide TrimStart, TrimEnd;
    i := |raw| - |s|;
    j := i + |t|;
    assert t == raw[i..j];
    forall k | 0 <= k < |raw| && !(i <= k < j)
      ensures raw[k] in BLANK
    {
      assert k >= j ==> raw[k] == s[k - i];
    }
  }

  /** The text the checker parses: the line without the line ends after it, less the header if it has one. */
  lemma CheckerTextIs(raw: Bytes) returns (j: nat)
    ensures j <= |raw| && (forall k :: j <= k < |raw| ==> raw[k] in {10, 13})
    ensures j > 0 ==> raw[j - 1] !in {10, 13}
    ensures CheckerText(raw) == if [62, 62, 103, 114, 97, 112, 104, 54, 60, 60] <= raw[..j] then raw[..j][10..]
                                else raw[..j]
  {
    TrimEndIs(raw, LINE_END);
    hide TrimEnd;
    j := |TrimEnd(raw, LINE_END)|;
  }

  /** When what is left after the line ends does not end in a blank, dropping blanks leaves the same. */
  lemma {:induction false} TrimWider(raw: Bytes)
    requires var c := TrimEnd(raw, LINE_END); c != [] && c[|c| - 1] !in BLANK
    ensures TrimEnd(raw, BLANK) == TrimEnd(raw, LINE_END)
  {
    if raw[|raw| - 1] in LINE_END {
      TrimWider(raw[..|raw| - 1]);
    }
  }

  // ---------- what is accepted ----------

  predicate InRange(b: int) {
    63 <= b <= 126
  }

  predicate AllInRange(data: Bytes) {
    forall i :: 0 <= i < |data| ==> InRange(data[i])
  }

  function ParseOrder(text: Bytes): (r: Result<Order, ParseError>)
    requires text != []
    ensures r.Ok? ==> r.value.offset <= |text|
  {
    if text[0] != 126 then Ok(Order(text[0] - 63, 1))
    else if |text| >= 4 && text[1] != 126 then Ok(Order(FourByteOrder(text[1], text[2], text[3]), 4))
    else Err(LargeOrderForm)
  }

  function Required(n: nat): nat {
    (Triangle(n) + 5) / 6
  }

  function LengthFault(n: nat, data: Bytes): Option<ParseError> {
    if |data| < Required(n) then Some(Truncated)
    else if |data| > Required(n) then Some(TrailingData)
    else None
  }

  /** The lab's complaint about a text, if any, in the order the checks are made. */
  function LabFault(text: Bytes): Option<ParseError> {
    if text == [] then Some(EmptyInput)
    else match ParseOrder(text)
      case Err(e) => Some(e)
      case Ok(o) =>
        var data := text[o.offset..];
        if o.n < 0 then Some(NegativeOrder)
        else if !AllInRange(data) then Some(ByteOutOfRange)
        else if LengthFault(o.n, data) != None then LengthFault(o.n, data)
        else if !PaddingClear(data, Triangle(o.n)) then Some(PaddingNotZero)
        else None
  }

  /** The checker's complaint: it range-checks the bytes it reads, when it reads them, and takes no more than
      128 vertices. */
  function CheckerFault(text: Bytes): Option<ParseError> {
    if text == [] then Some(EmptyInput)
    else match ParseOrder(text)
      case Err(e) => Some(e)
      case Ok(o) =>
        var data := text[o.offset..];
        if !AllInRange(text[..o.offset]) then Some(ByteOutOfRange)
        else if o.n < 0 || o.n > 128 then Some(TooManyForChecker)
        else if LengthFault(o.n, data) != None then LengthFault(o.n, data)
        else if Triangle(o.n) % 6 != 0 && data != [] && !InRange(data[|data| - 1]) then Some(ByteOutOfRange)
        else if !PaddingClear(data, Triangle(o.n)) then Some(PaddingNotZero)
        else if !AllInRange(data) then Some(ByteOutOfRange)
        else None
  }

  /** The upper triangle of the graph is the bits of the data. */
  ghost predicate Describes(data: Bytes, g: Graph) {
    |data| == Required(g.n) && Columns(g, g.n) == Unpack(data, Triangle(g.n))
  }

  /** The text, which has an order, spells the graph. */
  ghost predicate Spells(text: Bytes, g: Graph) {
    && text != [] && ParseOrder(text).Ok? && ParseOrder(text).value.n == g.n
    && Describes(text[ParseOrder(text).value.offset..], g)
  }

  ghost predicate LabReads(raw: Bytes, g: Graph) {
    LabFault(LabText(raw)) == None && Spells(LabText(raw), g)
  }

  ghost predicate CheckerReads(raw: Bytes, g: Graph) {
    CheckerFault(CheckerText(raw)) == None && Spells(CheckerText(raw), g)
  }

  // ---------- a text spells at most one graph ----------

  lemma {:induction false} SpelledOnce(text: Bytes, g: Graph, h: Graph)
    requires Spells(text, g) && Spells(text, h)
    ensures g == h
  {
    forall u, v | 0 <= u < v < g.n
      ensures Edge(g, u, v) <==> Edge(h, u, v)
    {
      ColumnsAt(g, g.n, u, v);
      ColumnsAt(h, h.n, u, v);
    }
    SameTriangleSameGraph(g, h);
  }

  lemma LabReadsOnce(raw: Bytes, g: Graph)
    requires LabReads(raw, g)
    ensures forall h :: LabReads(raw, h) ==> h == g
  {
    forall h | LabReads(raw, h)
      ensures h == g
    {
      SpelledOnce(LabText(raw), g, h);
    }
  }

  lemma CheckerReadsOnce(raw: Bytes, g: Graph)
    requires CheckerReads(raw, g)
    ensures forall h :: CheckerReads(raw, h) ==> h == g
  {
    forall h | CheckerReads(raw, h)
      ensures h == g
    {
      SpelledOnce(CheckerText(raw), g, h);
    }
  }

  // ---------- the bits read are a graph ----------

  predicate At(bits: seq<bool>, u: nat, v: nat) {
    Triangle(v) + u < |bits| && bits[Triangle(v) + u]
  }

  /** The edges listed so far: the set bits of the columns before v and of the first u places of column v. */
  ghost predicate Listed(edges: seq<(int, int)>, bits: seq<bool>, n: nat, v: nat, u: nat) {
    && (forall i :: 0 <= i < |edges| ==>
          && 0 <= edges[i].0 < edges[i].1 < n
          && (edges[i].1 < v || (edges[i].1 == v && edges[i].0 < u)))
    && (forall x: nat, y: nat :: x < y && (y < v || (y == v && x < u)) ==> ((x, y) in edges <==> At(bits, x, y)))
    && (forall i, j :: 0 <= i < j < |edges| ==> edges[i] != edges[j])
  }

  lemma ListedNext(edges: seq<(int, int)>, bits: seq<bool>, n: nat, v: nat, u: nat)
    requires Listed(edges, bits, n, v, u) && u < v < n
    ensures Listed(if At(bits, u, v) then edges + [(u, v)] else edges, bits, n, v, u + 1)
    ensures (u, v) !in edges && (v, u) !in edges
  {
    hide At, Triangle;
    assert (u, v) !in edges && (v, u) !in edges;
    var more := if At(bits, u, v) then edges + [(u, v)] else edges;
    forall x: nat, y: nat | x < y && (y < v || (y == v && x < u + 1))
      ensures (x, y) in more <==> At(bits, x, y)
    {
      assert (x, y) in edges + [(u, v)] <==> (x, y) in edges || (x, y) == (u, v);
      if (x, y) != (u, v) {
        assert (x, y) in edges <==> At(bits, x, y);
      }
    }
    forall i, j | 0 <= i < j < |more|
      ensures more[i] != more[j]
    {
      assert more[i] == edges[i] && more[i] in edges;
    }
  }

  lemma ListedColumn(edges: seq<(int, int)>, bits: seq<bool>, n: nat, v: nat)
    requires Listed(edges, bits, n, v, v)
    ensures Listed(edges, bits, n, v + 1, 0)
  {
  }

  lemma {:induction false} ListedHasNoFault(edges: seq<(int, int)>, bits: seq<bool>, n: nat, v: nat, u: nat, k: nat)
    requires Listed(edges, bits, n, v, u) && k <= |edges|
    ensures EdgeListFault(n, edges, k) == None
    decreases |edges| - k
  {
    if k < |edges| {
      ListedHasNoFault(edges, bits, n, v, u, k + 1);
    }
  }

  /** A graph with an edge wherever a bit is set has those bits as its upper triangle. */
  lemma {:induction false} BitsAreColumns(g: Graph, bits: seq<bool>, w: nat)
    requires w <= g.n && |bits| == Triangle(g.n) && Triangle(w) <= |bits|
    requires forall u: nat, v: nat :: u < v < g.n ==> (Edge(g, u, v) <==> At(bits, u, v))
    ensures Columns(g, w) == bits[..Triangle(w)]
  {
    if w > 0 {
      BitsAreColumns(g, bits, w - 1);
      var column := seq(w - 1, u requires 0 <= u < w - 1 => Edge(g, u, w - 1));
      assert column == bits[Triangle(w - 1)..Triangle(w)] by {
        assert forall u :: 0 <= u < |column| ==> column[u] == At(bits, u, w - 1);
      }
      assert bits[..Triangle(w)] == bits[..Triangle(w - 1)] + bits[Triangle(w - 1)..Triangle(w)];
    }
  }

  lemma ListedGraph(g: Graph, edges: seq<(int, int)>, data: Bytes)
    requires |data| == Required(g.n)
    requires Listed(edges, Unpack(data, Triangle(g.n)), g.n, g.n, 0)
             || (g.n == 0 && Listed(edges, Unpack(data, Triangle(g.n)), g.n, 1, 0))
    requires forall u: nat, v: nat :: Edge(g, u, v) <==> (u, v) in edges || (v, u) in edges
    ensures Describes(data, g)
  {
    var bits := Unpack(data, Triangle(g.n));
    forall u: nat, v: nat | u < v < g.n
      ensures Edge(g, u, v) <==> At(bits, u, v)
    {
      assert (v, u) !in edges;
    }
    BitsAreColumns(g, bits, g.n);
  }

  // ---------- the lab's reader ----------

  /** The inner loop: the edges of one column. */
  method EdgesOfColumn(data: Bytes, n: nat, v: nat, start: nat, earlier: seq<(int, int)>)
    returns (edges: seq<(int, int)>)
    requires |data| == Required(n) && v < n && start == Triangle(v)
    requires Listed(earlier, Unpack(data, Triangle(n)), n, v, 0)
    ensures Listed(edges, Unpack(data, Triangle(n)), n, v + 1, 0)
  {
    hide Listed, Triangle, Unpack, BitSet, At;
    ghost var bits := Unpack(data, Triangle(n));
    var position, u := start, 0;
    edges := earlier;
    while u < v
      invariant u <= v && position == start + u
      invariant Listed(edges, bits, n, v, u)
    {
      BitIsAt(data, n, v, u);
      ListedNext(edges, bits, n, v, u);
      if BitSet(data, position) {
        edges := edges + [(u, v)];
      }
      position := position + 1;
      u := u + 1;
    }
    ListedColumn(edges, bits, n, v);
  }

  method EdgesOf(data: Bytes, n: nat) returns (edges: seq<(int, int)>)
    requires |data| == Required(n)
    ensures Listed(edges, Unpack(data, Triangle(n)), n, if n == 0 then 1 else n, 0)
  {
    edges := [];
    var position, v := 0, 1;
    assert Triangle(1) == 0;
    assert Listed(edges, Unpack(data, Triangle(n)), n, 1, 0);
    hide Listed, Unpack;
    while v < n
      invariant v == 1 || v <= n
      invariant position == Triangle(v)
      invariant Listed(edges, Unpack(data, Triangle(n)), n, v, 0)
    {
      edges := EdgesOfColumn(data, n, v, position, edges);
      position := position + v;
      v := v + 1;
    }
  }

  method FromGraph6(raw: Bytes) returns (r: Result<Graph, ParseError>)
    ensures r.Err? <==> LabFault(LabText(raw)) != None
    ensures r.Err? ==> LabFault(LabText(raw)) == Some(r.error)
    ensures r.Ok? ==> LabReads(raw, r.value)
    ensures forall g :: LabReads(raw, g) ==> r == Ok(g)
  {
    hide LabText, FourByteOrder, Triangle, Listed, Columns, Unpack, EdgeListFault, Edge, WellFormed, InRange, Masked;
    var text := LabText(raw);
    if text == [] {
      return Err(EmptyInput);
    }
    var n, offset := 0, 0;
    if text[0] != 126 {
      n, offset := text[0] - 63, 1;
    } else if |text| >= 4 && text[1] != 126 {
      n, offset := FourByteOrder(text[1], text[2], text[3]), 4;
    } else {
      return Err(LargeOrderForm);
    }
    assert ParseOrder(text) == Ok(Order(n, offset));
    hide ParseOrder;
    if n < 0 {
      return Err(NegativeOrder);
    }
    var encoded := text[offset..];
    if exists i :: 0 <= i < |encoded| && !InRange(encoded[i]) {
      return Err(ByteOutOfRange);
    }
    var required := n * (n - 1) / 2;
    TriangleClosedForm(n);
    if |encoded| < (required + 5) / 6 {
      return Err(Truncated);
    }
    if |encoded| > (required + 5) / 6 {
      return Err(TrailingData);
    }
    if required % 6 != 0 && encoded != [] && Masked(encoded[|encoded| - 1] - 63, required) != 0 {
      return Err(PaddingNotZero);
    }
    assert LabFault(text) == None;
    var edges := EdgesOf(encoded, n);
    hide LabFault, LengthFault, AllInRange, PaddingClear;
    ListedHasNoFault(edges, Unpack(encoded, Triangle(n)), n, if n == 0 then 1 else n, 0, 0);
    var built := FromEdges(n, edges);
    ListedGraph(built.value, edges, encoded);
    LabReadsOnce(raw, built.value);
    r := Ok(built.value);
  }

  // ---------- the checker's reader ----------

  /** A byte with its offset taken off, or nothing when it is missing or out of range. */
  function ValueAt(text: Bytes, position: nat): Option<nat> {
    if position >= |text| || text[position] < 63 || text[position] > 126 then None
    else Some(text[position] - 63)
  }

  /** The bit at a position, or nothing when its byte is out of range. */
  function BitRead(data: Bytes, position: nat): (b: Option<bool>)
    requires position / 6 < |data|
    ensures b.Some? <==> InRange(data[position / 6])
    ensures b.Some? ==> b.value == BitSet(data, position)
  {
    var byte := ValueAt(data, position / 6);
    if byte == None then None else Some(Shifted(byte.value, position) % 2 == 1)
  }

  method ReadOrder(text: Bytes) returns (r: Result<Order, ParseError>)
    requires text != []
    ensures r.Ok? <==> ParseOrder(text).Ok? && AllInRange(text[..ParseOrder(text).value.offset])
    ensures r.Ok? ==> r == ParseOrder(text) && r.value.n >= 0
    ensures r.Err? ==> r.error == if ParseOrder(text).Ok? then ByteOutOfRange else LargeOrderForm
  {
    if text[0] != 126 {
      var value := ValueAt(text, 0);
      if value == None {
        return Err(ByteOutOfRange);
      }
      return Ok(Order(value.value, 1));
    } else if |text| >= 4 && text[1] != 126 {
      var a, b, c := ValueAt(text, 1), ValueAt(text, 2), ValueAt(text, 3);
      if a == None || b == None || c == None {
        return Err(ByteOutOfRange);
      }
      FourByteOrderOfDigits(a.value, b.value, c.value);
      return Ok(Order(FourByteOrder(text[1], text[2], text[3]), 4));
    }
    r := Err(LargeOrderForm);
  }

  /** The rows filled and the bytes checked before place u of column v. */
  ghost predicate Reading(data: Bytes, n: nat, rows: seq<set<nat>>, edges: seq<(int, int)>, v: nat, u: nat)
    requires |data| == Required(n)
  {
    && |rows| == n
    && Listed(edges, Unpack(data, Triangle(n)), n, v, u) && RowsList(n, rows, edges)
    && CheckedBefore(data, Triangle(v) + u)
  }

  /** Every byte that holds one of the first k bits is in range. */
  predicate CheckedBefore(data: Bytes, k: nat) {
    forall i :: 0 <= i < |data| && 6 * i < k ==> InRange(data[i])
  }

  lemma CheckedNext(data: Bytes, k: nat)
    requires CheckedBefore(data, k) && k / 6 < |data| && InRange(data[k / 6])
    ensures CheckedBefore(data, k + 1)
  {
  }

  lemma PlaceInData(n: nat, v: nat, u: nat)
    requires u < v < n
    ensures Triangle(v) + u < Triangle(n) && (Triangle(v) + u) / 6 < Required(n)
  {
  }

  lemma BitIsAt(data: Bytes, n: nat, v: nat, u: nat)
    requires |data| == Required(n) && u < v < n
    ensures (Triangle(v) + u) / 6 < |data|
    ensures BitSet(data, Triangle(v) + u) == At(Unpack(data, Triangle(n)), u, v)
  {
    PlaceInData(n, v, u);
    hide Triangle, BitSet;
  }

  lemma ReadingNext(data: Bytes, n: nat, rows: seq<set<nat>>, edges: seq<(int, int)>, v: nat, u: nat)
    requires |data| == Required(n) && u < v < n && Reading(data, n, rows, edges, v, u)
    requires (Triangle(v) + u) / 6 < |data| && InRange(data[(Triangle(v) + u) / 6])
    ensures if BitSet(data, Triangle(v) + u)
            then Reading(data, n, rows[u := rows[u] + {v}][v := rows[v] + {u}], edges + [(u, v)], v, u + 1)
            else Reading(data, n, rows, edges, v, u + 1)
  {
    hide Triangle, Unpack, BitSet, At, Listed, RowsList, InRange, CheckedBefore;
    var bits := Unpack(data, Triangle(n));
    BitIsAt(data, n, v, u);
    CheckedNext(data, Triangle(v) + u);
    ListedNext(edges, bits, n, v, u);
    RowsListNext(n, rows, edges, u, v);
  }

  lemma ReadingColumn(data: Bytes, n: nat, rows: seq<set<nat>>, edges: seq<(int, int)>, v: nat)
    requires |data| == Required(n) && Reading(data, n, rows, edges, v, v)
    ensures Reading(data, n, rows, edges, v + 1, 0)
  {
  }

  lemma ReadingDone(data: Bytes, n: nat, rows: seq<set<nat>>, edges: seq<(int, int)>)
    requires |data| == Required(n) && Reading(data, n, rows, edges, if n == 0 then 1 else n, 0)
    ensures WellFormed(BitGraph(n, rows)) && Describes(data, BitGraph(n, rows)) && AllInRange(data)
  {
    assert Triangle(1) == 0;
    assert forall i :: 0 <= i < |data| ==> 6 * i < Triangle(n);
    hide Listed, RowsList, Unpack, Columns;
    RowsListGraph(n, rows, edges);
    ListedGraph(BitGraph(n, rows), edges, data);
  }

  /** The checker's inner loop: every byte is checked as it is read, and a set bit goes into both rows. */
  method ReadColumn(data: Bytes, n: nat, v: nat, start: nat, given: seq<set<nat>>, ghost earlier: seq<(int, int)>)
    returns (r: Result<seq<set<nat>>, ParseError>, ghost edges: seq<(int, int)>)
    requires |data| == Required(n) && |given| == n
    requires v < n && start == Triangle(v) && Reading(data, n, given, earlier, v, 0)
    ensures r.Ok? ==> |r.value| == n && Reading(data, n, r.value, edges, v, v)
    ensures r.Err? ==> r.error == ByteOutOfRange && !AllInRange(data)
  {
    hide Reading, Triangle, Required, BitSet, InRange;
    var rows: seq<set<nat>> := given;
    var position, u := start, 0;
    edges := earlier;
    while u < v
      invariant u <= v && position == start + u && |rows| == n
      invariant Reading(data, n, rows, edges, v, u)
    {
      PlaceInData(n, v, u);
      var bit := BitRead(data, position);
      if bit == None {
        return Err(ByteOutOfRange), edges;
      }
      ReadingNext(data, n, rows, edges, v, u);
      hide *;
      if bit.value {
        rows := rows[u := rows[u] + {v}][v := rows[v] + {u}];
        edges := edges + [(u, v)];
      }
      position := position + 1;
      u := u + 1;
    }
    r := Ok(rows);
  }

  method ReadRows(data: Bytes, n: nat) returns (r: Result<Graph, ParseError>)
    requires |data| == Required(n)
    ensures r.Ok? <==> AllInRange(data)
    ensures r.Ok? ==> r.value.n == n && Describes(data, r.value)
    ensures r.Err? ==> r.error == ByteOutOfRange
  {
    ghost var edges: seq<(int, int)> := [];
    var rows: seq<set<nat>> := seq(n, _ => {});
    var position, v := 0, 1;
    assert Triangle(1) == 0;
    assert Reading(data, n, rows, edges, 1, 0);
    hide Reading, Describes, AllInRange;
    while v < n
      invariant v == 1 || v <= n
      invariant position == Triangle(v) && |rows| == n
      invariant Reading(data, n, rows, edges, v, 0)
    {
      var column;
      column, edges := ReadColumn(data, n, v, position, rows, edges);
      if column.Err? {
        return Err(column.error);
      }
      rows := column.value;
      ReadingColumn(data, n, rows, edges, v);
      position := position + v;
      v := v + 1;
    }
    ReadingDone(data, n, rows, edges);
    r := Ok(BitGraph(n, rows));
  }

  method ChopLineEnds(raw: Bytes) returns (text: Bytes)
    ensures text == TrimEnd(raw, LINE_END)
  {
    text := raw;
    while text != [] && (text[|text| - 1] == 10 || text[|text| - 1] == 13)
      invariant TrimEnd(text, LINE_END) == TrimEnd(raw, LINE_END)
    {
      text := text[..|text| - 1];
    }
  }

  method ParseGraph6(raw: Bytes) returns (r: Result<Graph, ParseError>)
    ensures r.Err? <==> CheckerFault(CheckerText(raw)) != None
    ensures r.Err? ==> CheckerFault(CheckerText(raw)) == Some(r.error)
    ensures r.Ok? ==> CheckerReads(raw, r.value)
    ensures forall g :: CheckerReads(raw, g) ==> r == Ok(g)
  {
    var chopped := ChopLineEnds(raw);
    var text := WithoutHeader(chopped);
    assert text == CheckerText(raw);
    hide CheckerText, TrimEnd, WithoutHeader, Triangle, Columns, Unpack, Edge, WellFormed, FourByteOrder, Masked;
    if text == [] {
      return Err(EmptyInput);
    }
    var order := ReadOrder(text);
    if order.Err? {
      return Err(order.error);
    }
    var n, offset := order.value.n, order.value.offset;
    hide ParseOrder;
    if n < 0 || n > 128 {
      return Err(TooManyForChecker);
    }
    var required := n * (n - 1) / 2;
    TriangleClosedForm(n);
    if |text| - offset < (required + 5) / 6 {
      return Err(Truncated);
    }
    if |text| - offset > (required + 5) / 6 {
      return Err(TrailingData);
    }
    if required % 6 != 0 && (required + 5) / 6 != 0 {
      var last := ValueAt(text, |text| - 1);
      if last == None {
        return Err(ByteOutOfRange);
      }
      if Masked(last.value, required) != 0 {
        return Err(PaddingNotZero);
      }
    }
    r := ReadRows(text[offset..], n);
    if r.Ok? {
      CheckerReadsOnce(raw, r.value);
    }
  }

  // ---------- what the two readers and the encoder have to do with each other ----------

  lemma DigitsOfOrder(n: nat)
    requires n < 262144
    ensures n == n / 4096 % 64 * 4096 + n / 64 % 64 * 64 + n % 64
    ensures n / 4096 % 64 == 63 <==> n > LARGEST
  {
    assert n / 4096 == n / 64 / 64 && n / 64 / 64 < 64;
    assert n == n / 64 * 64 + n % 64;
  }

  /** The order bytes are read back exactly up to 258047: from there to 18 bits the second byte is the mark of
      the eight-byte form, which the reader refuses. */
  lemma OrderRoundTrip(n: nat, rest: Bytes)
    requires n < 262144
    ensures n <= LARGEST <==> ParseOrder(OrderBytes(n) + rest) == Ok(Order(n, |OrderBytes(n)|))
    ensures n > LARGEST <==> ParseOrder(OrderBytes(n) + rest) == Err(LargeOrderForm)
  {
    hide FourByteOrder;
    var text := OrderBytes(n) + rest;
    if n > 62 {
      var a, b, c := n / 4096 % 64, n / 64 % 64, n % 64;
      DigitsOfOrder(n);
      FourByteOrderOfDigits(a, b, c);
      assert text[0] == 126 && text[1] == a + 63 && text[2] == b + 63 && text[3] == c + 63;
    }
  }

  lemma BareText(text: Bytes)
    requires text != [] && InRange(text[0]) && InRange(text[|text| - 1])
    ensures LabText(text) == text && CheckerText(text) == text
  {
  }

  lemma EncodedBytesInRange(g: Graph)
    ensures AllInRange(EncodeBytes(g)) && EncodeBytes(g) != []
  {
  }

  lemma UnpackPacked(bits: seq<bool>)
    ensures Unpack(Pack(bits), |bits|) == bits
  {
    forall k | 0 <= k < |bits|
      ensures Unpack(Pack(bits), |bits|)[k] == bits[k]
    {
      PackedBit(bits, k);
    }
  }

  /** Reading back what was written gives the graph, for every order the encoder takes. */
  lemma RoundTrip(g: Graph)
    requires g.n <= LARGEST
    ensures LabReads(EncodeBytes(g), g)
  {
    var text, bits := EncodeBytes(g), Columns(g, g.n);
    EncodedBytesInRange(g);
    BareText(text);
    OrderRoundTrip(g.n, Pack(bits));
    assert text[|OrderBytes(g.n)|..] == Pack(bits);
    PackedPadding(bits);
    UnpackPacked(bits);
    hide LabText, CheckerText, OrderBytes, Pack, Columns, Triangle, ParseOrder, Unpack, EncodeBytes, PaddingClear;
    assert AllInRange(Pack(bits));
  }

  lemma EncodingInjective(g: Graph, h: Graph)
    requires g.n <= LARGEST && h.n <= LARGEST && EncodeBytes(g) == EncodeBytes(h)
    ensures g == h
  {
    RoundTrip(g);
    RoundTrip(h);
    SpelledOnce(LabText(EncodeBytes(g)), g, h);
  }

  /** The order is in the shortest form and its bytes are graph6 bytes. */
  predicate CanonicalOrder(text: Bytes)
    requires text != [] && ParseOrder(text).Ok?
  {
    && AllInRange(text[..ParseOrder(text).value.offset])
    && (text[0] == 126 ==> ParseOrder(text).value.n >= 63)
  }

  lemma OrderDigits(n: int, a: nat, b: nat, c: nat)
    requires a < 64 && b < 64 && c < 64 && n == a * 4096 + b * 64 + c
    ensures n / 4096 % 64 == a && n / 64 % 64 == b && n % 64 == c
  {
    assert n / 64 == a * 64 + b;
    assert n / 4096 == a;
  }

  lemma CanonicalOrderBytes(text: Bytes)
    requires text != [] && ParseOrder(text).Ok? && CanonicalOrder(text)
    ensures ParseOrder(text).value.n >= 0
    ensures OrderBytes(ParseOrder(text).value.n) == text[..ParseOrder(text).value.offset]
  {
    var head := text[..ParseOrder(text).value.offset];
    assert InRange(head[0]);
    hide FourByteOrder;
    if text[0] == 126 {
      assert InRange(head[1]) && InRange(head[2]) && InRange(head[3]);
      var n, a, b, c := ParseOrder(text).value.n, text[1] - 63, text[2] - 63, text[3] - 63;
      FourByteOrderOfDigits(a, b, c);
      OrderDigits(n, a, b, c);
      assert OrderBytes(n) == [126, a + 63, b + 63, c + 63];
    }
  }

  /** An accepted text is the encoding of the graph read from it exactly when its order is canonical. */
  lemma ReencodesExactly(raw: Bytes, g: Graph)
    requires LabReads(raw, g)
    ensures EncodeBytes(g) == LabText(raw) <==> CanonicalOrder(LabText(raw))
  {
    hide LabText;
    var text := LabText(raw);
    if CanonicalOrder(text) {
      CanonicalReencodes(text, g);
    }
    if EncodeBytes(g) == text {
      EncodedIsCanonical(text, g);
    }
  }

  lemma AcceptedData(text: Bytes)
    requires LabFault(text) == None
    ensures text != [] && ParseOrder(text).Ok?
    ensures var (n, data) := (ParseOrder(text).value.n, text[ParseOrder(text).value.offset..]);
            n >= 0 && AllInRange(data) && |data| == Required(n) && PaddingClear(data, Triangle(n))
  {
    hide ParseOrder, AllInRange, PaddingClear, Triangle;
  }

  /** Data that describes a graph is its packed upper triangle. */
  lemma DescribedData(data: Bytes, g: Graph)
    requires Describes(data, g) && AllInRange(data) && PaddingClear(data, Triangle(g.n))
    ensures Pack(Columns(g, g.n)) == data
  {
    hide Pack, Unpack, Columns, PaddingClear, Triangle;
    Repack(data, Triangle(g.n));
  }

  lemma CanonicalReencodes(text: Bytes, g: Graph)
    requires LabFault(text) == None && Spells(text, g) && CanonicalOrder(text)
    ensures EncodeBytes(g) == text
  {
    hide ParseOrder, FourByteOrder, OrderBytes, Pack, Describes, AllInRange, PaddingClear, LabFault, CanonicalOrder,
         Triangle;
    AcceptedData(text);
    CanonicalOrderBytes(text);
    var offset := ParseOrder(text).value.offset;
    DescribedData(text[offset..], g);
    assert text == text[..offset] + text[offset..];
  }

  lemma EncodedIsCanonical(text: Bytes, g: Graph)
    requires Spells(text, g) && EncodeBytes(g) == text
    ensures CanonicalOrder(text)
  {
    EncodedBytesInRange(g);
    hide Columns, Pack, Triangle, FourByteOrder;
    assert g.n <= 62 ==> text[0] == g.n + 63;
  }

  const LONG_FORM: Bytes := [126, 63, 63, 64]

  /** One vertex in the four-byte form is accepted, and written back as a single byte. */
  lemma LongFormIsShortened()
    ensures LabReads(LONG_FORM, BitGraph(1, [{}])) && EncodeBytes(BitGraph(1, [{}])) == [64] != LabText(LONG_FORM)
  {
    var g: Graph := BitGraph(1, [{}]);
    BareText(LONG_FORM);
    FourByteOrderOfDigits(0, 0, 1);
    assert Columns(g, 1) == [];
    assert LONG_FORM[4..] == [];
  }

  function NoEdges(n: nat): (g: Graph)
    ensures g.n == n && forall u, v :: !Edge(g, u, v)
  {
    BitGraph(n, seq(n, _ => {}))
  }

  lemma {:induction false} NoEdgesColumns(n: nat, v: nat)
    requires v <= n
    ensures forall k :: 0 <= k < Triangle(v) ==> !Columns(NoEdges(n), v)[k]
  {
    if v > 0 {
      NoEdgesColumns(n, v - 1);
    }
  }

  /** An order byte one above the range, and 64 vertices without an edge. */
  function HighOrder(): Bytes {
    [127] + seq(336, _ => 63)
  }

  lemma ZeroBits(data: Bytes, m: nat)
    requires |data| == (m + 5) / 6 && forall i :: 0 <= i < |data| ==> data[i] == 63
    ensures forall k :: 0 <= k < m ==> !Unpack(data, m)[k]
  {
  }

  lemma HighOrderText()
    ensures LabText(HighOrder()) == HighOrder() && CheckerText(HighOrder()) == HighOrder()
    ensures HighOrder()[1..] == seq(336, _ => 63) && HighOrder()[..1] == [127]
  {
    assert HighOrder()[|HighOrder()| - 1] == 63;
  }

  lemma HighOrderParses()
    ensures ParseOrder(HighOrder()) == Ok(Order(64, 1)) && Triangle(64) == 2016 && Required(64) == 336
  {
    TriangleClosedForm(64);
    hide Triangle;
  }

  lemma HighOrderDescribes()
    ensures Describes(seq(336, _ => 63), NoEdges(64))
  {
    var data: Bytes := seq(336, _ => 63);
    HighOrderParses();
    NoEdgesColumns(64, 64);
    hide Columns, Triangle;
    ZeroBits(data, 2016);
    assert Columns(NoEdges(64), 64) == Unpack(data, 2016);
  }

  /** The lab accepts an order byte out of range that the checker refuses. */
  lemma HighOrderIsAccepted()
    ensures LabReads(HighOrder(), NoEdges(64)) && CheckerFault(CheckerText(HighOrder())) == Some(ByteOutOfRange)
  {
    hide LabText, CheckerText, Describes, Triangle, HighOrder;
    HighOrderText();
    HighOrderParses();
    HighOrderDescribes();
    NothingMasked(seq(336, _ => 63));
    hide ParseOrder, Required;
    assert !AllInRange(HighOrder()[..1]);
  }

  lemma NothingMasked(data: Bytes)
    requires forall i :: 0 <= i < |data| ==> data[i] == 63
    ensures AllInRange(data) && forall m :: PaddingClear(data, m)
  {
  }

  /** The checker takes a text exactly when the lab does and it has only line ends around it, at most 128
      vertices, and order bytes in range. */
  lemma CheckerIsStricter(raw: Bytes)
    ensures CheckerFault(CheckerText(raw)) == None <==>
      && LabText(raw) == CheckerText(raw)
      && LabFault(LabText(raw)) == None
      && AllInRange(LabText(raw))
      && ParseOrder(LabText(raw)).value.n <= 128
  {
    var text := CheckerText(raw);
    if CheckerFault(text) == None {
      CheckerTextInRange(text);
      SameText(raw);
    }
  }

  lemma CheckerTextInRange(text: Bytes)
    requires CheckerFault(text) == None
    ensures AllInRange(text)
  {
  }

  lemma SameText(raw: Bytes)
    requires CheckerText(raw) != [] && AllInRange(CheckerText(raw))
    ensures LabText(raw) == CheckerText(raw)
  {
    var c, text := TrimEnd(raw, LINE_END), CheckerText(raw);
    assert c[|c| - 1] == text[|text| - 1] && InRange(text[|text| - 1]);
    assert c[0] == 62 || InRange(c[0]);
    TrimWider(raw);
  }

  /** What the checker reads, the lab reads as the same graph. */
  lemma ReadersAgree(raw: Bytes, g: Graph, h: Graph)
    requires CheckerReads(raw, g)
    ensures LabReads(raw, g)
    ensures LabReads(raw, h) ==> h == g
  {
    CheckerIsStricter(raw);
    if LabReads(raw, h) {
      SpelledOnce(LabText(raw), g, h);
    }
  }

  /** Every graph the lab writes on at most 128 vertices reaches the checker unchanged. */
  lemma WrittenGraphReachesChecker(g: Graph)
    requires g.n <= 128
    ensures CheckerReads(EncodeBytes(g), g)
  {
    RoundTrip(g);
    EncodedBytesInRange(g);
    BareText(EncodeBytes(g));
    CheckerIsStricter(EncodeBytes(g));
  }

  /** A graph that is written and read again by the lab. */
  method Reread(g: Graph) returns (r: Option<Graph>)
    ensures r == if g.n <= LARGEST then Some(g) else None
  {
    var text := EncodeGraph6(g);
    if text.Err? {
      return None;
    }
    RoundTrip(g);
    var back := FromGraph6(text.value);
    r := Some(back.value);
  }

  /** A graph that is written to a file and read from its first line by the checker. */
  method SendToChecker(g: Graph) returns (r: Option<Graph>)
    ensures g.n <= 128 ==> r == Some(g)
    ensures g.n > 128 ==> r == None
  {
    var text := EncodeGraph6(g);
    if text.Err? {
      return None;
    }
    RoundTrip(g);
    var back := ParseGraph6(text.value);
    if g.n <= 128 {
      WrittenGraphReachesChecker(g);
    } else if back.Ok? {
      ReadersAgree(text.value, back.value, g);
    }
    r := if back.Ok? then Some(back.value) else None;
  }
}
