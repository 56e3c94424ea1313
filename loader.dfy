/**
 * The matrix files of graphann/loader.go: the graph (integer matrix)
 * loaders and savers for .txt, .npy and .ivecs files, the extension
 * dispatch in front of them, and the shape checks of the .npy loaders.
 *
 * The file system is a map from path to content. A content is what the
 * reader of its kind sees: the characters of a text file, the shape and
 * int32 values of a .npy array, or the decoded vectors of an .ivecs file.
 * A path that is missing, or whose content is not of the kind its loader
 * reads, fails to open.
 *
 * The text format is one line per row, each value written in decimal and
 * followed by a single space. LoadGraphFromTxtFile reads at most n lines,
 * needs exactly m whitespace-separated fields on each, every one a decimal
 * int, and leaves the rows it gets no line for all zero.
 */
module Loader {

  import opened Common
  import opened TextCodec

  /** An int32, as a .npy graph stores its values. */
  type Int32 = x: int | -0x8000_0000 <= x < 0x8000_0000

  /** A uint32, as an .ivecs file stores its values. */
  type Uint32 = x: int | 0 <= x < 0x1_0000_0000

  /** A graph or integer matrix: rows of Go ints. */
  type Graph = seq<seq<Int64>>

  /** The error values the loaders and savers return, with the numbers their messages report. */
  datatype LoadError =
    | Unreadable(path: string)                        // the file cannot be opened or read as its kind
    | FieldCount(line: nat, got: nat, expected: nat)  // a text line with the wrong number of fields
    | BadField(field: nat, line: nat)                 // a text field that is not a decimal int
    | InvalidShape(shape: seq<int>)                   // a .npy array of the wrong shape
    | UnknownExtension(ext: string)                   // an extension no case of the dispatch names

  datatype Content =
    | Text(text: string)
    | NpyInt32(shape: seq<int>, data: seq<Int32>)
    | Ivecs(vectors: seq<seq<Uint32>>)

  type Files = map<string, Content>

  // ---------------------------------------------------------------------
  // Extensions
  // ---------------------------------------------------------------------

  /** filepath.Ext: the suffix from the last '.' of the last path element on, or "" when there is none. */
  function Ext(path: string): (e: string)
    ensures e == [] || (e[0] == '.' && |e| <= |path| && e == path[|path| - |e|..])
  {
    ExtBefore(path, |path|)
  }

  /** The scan of filepath.Ext from position i backwards. */
  function ExtBefore(path: string, i: nat): (e: string)
    requires i <= |path|
    ensures e == [] || (e[0] == '.' && |path| - i < |e| <= |path| && e == path[|path| - |e|..])
  {
    if i == 0 || path[i - 1] == '/' then []
    else if path[i - 1] == '.' then path[i - 1..]
    else ExtBefore(path, i - 1)
  }

  /** A name ending in '.' and then characters that are neither '.' nor '/' has that ending as its extension. */
  lemma ExtOfName(stem: string, ext: string)
    requires |ext| > 0 && ext[0] == '.'
    requires forall k | 1 <= k < |ext| :: ext[k] != '.' && ext[k] != '/'
    ensures Ext(stem + ext) == ext
  {
    var path := stem + ext;
    ExtScan(path, |stem|, |path|);
    assert path[|stem|..] == ext;
  }

  lemma {:induction false} ExtScan(path: string, dot: nat, i: nat)
    requires dot < i <= |path| && path[dot] == '.'
    requires forall k | dot < k < i :: path[k] != '.' && path[k] != '/'
    ensures ExtBefore(path, i) == path[dot..]
    decreases i
  {
    if i - 1 > dot {
      assert path[i - 1] != '.' && path[i - 1] != '/';
      ExtScan(path, dot, i - 1);
    } else {
      assert path[i - 1] == '.';
    }
  }

  /** The extensions each dispatch handles. */
  const GraphLoadExts: set<string> := {".npy", ".txt", ".ivecs"}
  const GraphSaveExts: set<string> := {".npy", ".txt"}
  const FloatLoadExts: set<string> := {".bvecs", ".fvecs", ".txt", ".npy"}

  /** The readers LoadFloat32Matrix hands a file to. */
  datatype FloatReader = FromBvecs | FromFvecs | FromTxt | FromNpy

  /** LoadFloat32Matrix's choice of reader by extension. */
  function FloatReaderFor(filename: string): (r: Result<FloatReader, LoadError>)
    ensures r.Ok? <==> Ext(filename) in FloatLoadExts
  {
    var ext := Ext(filename);
    if ext == ".bvecs" then Ok(FromBvecs)
    else if ext == ".fvecs" then Ok(FromFvecs)
    else if ext == ".txt" then Ok(FromTxt)
    else if ext == ".npy" then Ok(FromNpy)
    else Err(UnknownExtension(ext))
  }

  // ---------------------------------------------------------------------
  // The text format
  // ---------------------------------------------------------------------

  /** One value as SaveGraphToTxtFile writes it: its decimal form and a space. */
  function Token(x: int): (t: string)
    ensures |t| > 0 && t[|t| - 1] == ' '
    ensures forall k | 0 <= k < |t| :: t[k] == ' ' || t[k] == '-' || IsDigit(t[k])
  {
    FormatInt(x) + " "
  }

  /** One row as SaveGraphToTxtFile writes it, without its newline. */
  function RowText(row: seq<int>): (s: string)
    ensures s == [] || s[|s| - 1] == ' '
    ensures forall k | 0 <= k < |s| :: s[k] == ' ' || s[k] == '-' || IsDigit(s[k])
  {
    if row == [] then [] else RowText(row[..|row| - 1]) + Token(row[|row| - 1])
  }

  /** Every row of the graph holds at least m values. */
  predicate RowsHold(graph: seq<seq<int>>, m: nat) {
    forall i | 0 <= i < |graph| :: |graph[i]| >= m
  }

  /** The decimal forms of the values of a row. */
  function Formatted(row: seq<int>): (fs: seq<string>)
    ensures |fs| == |row|
  {
    if row == [] then [] else Formatted(row[..|row| - 1]) + [FormatInt(row[|row| - 1])]
  }

  /** The texts of the rows, each cut to its first m values. */
  function RowTexts(graph: seq<seq<int>>, m: nat): (ts: seq<string>)
    requires RowsHold(graph, m)
    ensures |ts| == |graph|
  {
    if graph == [] then [] else RowTexts(graph[..|graph| - 1], m) + [RowText(graph[|graph| - 1][..m])]
  }

  /** The text SaveGraphToTxtFile writes: the first m values of every row, a newline after each row. */
  function GraphText(graph: seq<seq<int>>, m: nat): (s: string)
    requires RowsHold(graph, m)
    ensures s == [] || s[|s| - 1] == '\n'
  {
    if graph == [] then []
    else GraphText(graph[..|graph| - 1], m) + RowText(graph[|graph| - 1][..m]) + "\n"
  }

  /** Fields j of a line, parsed with Atoi; the first that fails is reported, numbered from 1. */
  function ParseFields(fields: seq<string>, line: nat): (r: Result<seq<Int64>, LoadError>)
    ensures r.Ok? ==> |r.value| == |fields|
  {
    if fields == [] then Ok([])
    else
      match ParseFields(fields[..|fields| - 1], line)
      case Err(e) => Err(e)
      case Ok(values) =>
        match Atoi(fields[|fields| - 1])
        case None => Err(BadField(|fields|, line))
        case Some(v) => Ok(values + [v])
  }

  /** Line i (from 0) of the file as a row of m values, or the error reported for it. */
  function ParseLine(text: string, m: nat, i: nat): (r: Result<seq<Int64>, LoadError>)
    ensures r.Ok? ==> |r.value| == m
  {
    var fields := Fields(text);
    if |fields| != m then Err(FieldCount(i + 1, |fields|, m)) else ParseFields(fields, i + 1)
  }

  /** The first k lines as rows, or the error of the first line that fails. */
  function ParseLines(lines: seq<string>, k: nat, m: nat): (r: Result<Graph, LoadError>)
    requires k <= |lines|
    ensures r.Ok? ==> |r.value| == k
  {
    if k == 0 then Ok([])
    else
      match ParseLines(lines, k - 1, m)
      case Err(e) => Err(e)
      case Ok(rows) =>
        match ParseLine(lines[k - 1], m, k - 1)
        case Err(e) => Err(e)
        case Ok(row) => Ok(rows + [row])
  }

  function ZeroRow(m: nat): (z: seq<Int64>)
    ensures |z| == m
  {
    seq(m, _ => 0)
  }

  /** What LoadGraphFromTxtFile returns for a file of the given text. */
  function TxtGraph(text: string, n: nat, m: nat): Result<Graph, LoadError> {
    var lines := Lines(text);
    var k := Min(n, |lines|);
    match ParseLines(lines, k, m)
    case Err(e) => Err(e)
    case Ok(rows) => Ok(rows + seq(n - k, _ => ZeroRow(m)))
  }

  function TxtFileGraph(files: Files, filename: string, n: nat, m: nat): Result<Graph, LoadError> {
    if filename in files && files[filename].Text? then TxtGraph(files[filename].text, n, m)
    else Err(Unreadable(filename))
  }

  /** Once the rows so far have failed, more lines do not change the error. */
  lemma {:induction false} ParseLinesStop(lines: seq<string>, j: nat, k: nat, m: nat)
    requires j <= k <= |lines| && ParseLines(lines, j, m).Err?
    ensures ParseLines(lines, k, m) == ParseLines(lines, j, m)
    decreases k
  {
    if k > j {
      ParseLinesStop(lines, j, k - 1, m);
    }
  }

  /** Once a field has failed, later fields do not change the error. */
  lemma {:induction false} ParseFieldsStop(fields: seq<string>, j: nat, line: nat)
    requires j <= |fields| && ParseFields(fields[..j], line).Err?
    ensures ParseFields(fields, line) == ParseFields(fields[..j], line)
    decreases |fields|
  {
    if |fields| > j {
      var init := fields[..|fields| - 1];
      assert init[..j] == fields[..j];
      ParseFieldsStop(init, j, line);
    } else {
      assert fields[..j] == fields;
    }
  }

  /**
   * The rows the loader fills: a successful load has n rows of m values,
   * the rows parsed from the first lines and zero rows after the last line.
   */
  lemma TxtGraphShape(text: string, n: nat, m: nat)
    requires TxtGraph(text, n, m).Ok?
    ensures var rows, k := TxtGraph(text, n, m).value, Min(n, |Lines(text)|);
      && |rows| == n
      && (forall i | 0 <= i < k :: ParseLine(Lines(text)[i], m, i) == Ok(rows[i]))
      && (forall i | k <= i < n :: rows[i] == ZeroRow(m))
  {
    var lines := Lines(text);
    var k := Min(n, |lines|);
    ParsedRows(lines, k, m);
  }

  /** A successful ParseLines holds, at each position, the row of that line. */
  lemma {:induction false} ParsedRows(lines: seq<string>, k: nat, m: nat)
    requires k <= |lines| && ParseLines(lines, k, m).Ok?
    ensures forall i | 0 <= i < k :: ParseLine(lines[i], m, i) == Ok(ParseLines(lines, k, m).value[i])
  {
    if k > 0 {
      ParsedRows(lines, k - 1, m);
    }
  }

  /** The load fails exactly when one of the first min(n, lines) lines fails. */
  lemma {:induction false} ParseLinesOk(lines: seq<string>, k: nat, m: nat)
    requires k <= |lines|
    ensures ParseLines(lines, k, m).Ok? <==> forall i | 0 <= i < k :: ParseLine(lines[i], m, i).Ok?
  {
    if k > 0 {
      ParseLinesOk(lines, k - 1, m);
    }
  }

  /** A line parses exactly when it has m fields and every one is a decimal int. */
  lemma ParseLineOk(text: string, m: nat, i: nat)
    ensures ParseLine(text, m, i).Ok? <==>
      |Fields(text)| == m && forall j | 0 <= j < m :: Atoi(Fields(text)[j]).Some?
  {
    ParseFieldsOk(Fields(text), i + 1);
  }

  lemma {:induction false} ParseFieldsOk(fields: seq<string>, line: nat)
    ensures ParseFields(fields, line).Ok? <==> forall j | 0 <= j < |fields| :: Atoi(fields[j]).Some?
    decreases |fields|
  {
    if fields != [] {
      var init := fields[..|fields| - 1];
      ParseFieldsOk(init, line);
      assert forall j | 0 <= j < |init| :: init[j] == fields[j];
    }
  }

  /** The error reported is the one of the first line that fails. */
  lemma FirstBadLine(lines: seq<string>, k: nat, m: nat, i: nat)
    requires i < k <= |lines| && ParseLine(lines[i], m, i).Err?
    requires forall j | 0 <= j < i :: ParseLine(lines[j], m, j).Ok?
    ensures ParseLines(lines, k, m) == Err(ParseLine(lines[i], m, i).error)
  {
    ParseLinesOk(lines, i, m);
    ParseLinesStop(lines, i + 1, k, m);
  }

  // ---------------------------------------------------------------------
  // The .npy format
  // ---------------------------------------------------------------------

  /** The shape check of both .npy loaders: two dimensions, at least n rows, exactly cols columns. */
  predicate ShapeOk(shape: seq<int>, n: nat, cols: nat) {
    |shape| == 2 && shape[0] >= n && shape[1] == cols
  }

  lemma RowBounds(i: nat, n: nat, m: nat)
    requires i < n
    ensures i * m + m == (i + 1) * m <= n * m
  {
    WithinRows(i + 1, n, m);
  }

  /** The first n rows of m values of a flat row-major array. */
  function NpyRows(data: seq<Int32>, n: nat, m: nat): (rows: Graph)
    requires n * m <= |data|
    ensures |rows| == n
    ensures forall i | 0 <= i < n :: |rows[i]| == m
  {
    if n == 0 then []
    else
      RowBounds(n - 1, n, m);
      NpyRows(data, n - 1, m) + [data[(n - 1) * m..n * m]]
  }

  /** What LoadGraphFromNpyFile returns for an array of the given shape and values. */
  function NpyGraph(filename: string, shape: seq<int>, data: seq<Int32>, n: nat, m: nat): Result<Graph, LoadError> {
    if !ShapeOk(shape, n, m) then Err(InvalidShape(shape))
    else if |data| != shape[0] * shape[1] then Err(Unreadable(filename))
    else
      WithinRows(n, shape[0], m);
      Ok(NpyRows(data, n, m))
  }

  lemma WithinRows(n: nat, rows: nat, m: nat)
    requires n <= rows
    ensures n * m <= rows * m
  {
  }

  function NpyFileGraph(files: Files, filename: string, n: nat, m: nat): Result<Graph, LoadError> {
    if filename in files && files[filename].NpyInt32? then
      NpyGraph(filename, files[filename].shape, files[filename].data, n, m)
    else Err(Unreadable(filename))
  }

  /** int32(x): the low 32 bits of x read as a two's complement value. */
  function Wrap32(x: int): (w: Int32)
    ensures -0x8000_0000 <= x < 0x8000_0000 ==> w == x
  {
    (x + 0x8000_0000) % 0x1_0000_0000 - 0x8000_0000
  }

  function WrapRow(row: seq<int>): (w: seq<Int32>)
    ensures |w| == |row|
    ensures forall j | 0 <= j < |row| :: w[j] == Wrap32(row[j])
  {
    seq(|row|, j requires 0 <= j < |row| => Wrap32(row[j]))
  }

  /** The int32 values SaveGraphToNpyFile writes: the first m of every row, row after row. */
  function NpyData(graph: seq<seq<int>>, m: nat): (data: seq<Int32>)
    requires RowsHold(graph, m)
    ensures |data| == |graph| * m
  {
    if graph == [] then []
    else
      var n := |graph|;
      RowBounds(n - 1, n, m);
      NpyData(graph[..n - 1], m) + WrapRow(graph[n - 1][..m])
  }

  /** Row i of the saved array is row i of the graph, truncated to int32. */
  lemma {:induction false} NpyDataRow(graph: seq<seq<int>>, m: nat, i: nat)
    requires RowsHold(graph, m) && i < |graph|
    ensures (i + 1) * m <= |graph| * m
    ensures NpyData(graph, m)[i * m..(i + 1) * m] == WrapRow(graph[i][..m])
    decreases |graph|
  {
    var n := |graph|;
    RowBounds(i, n, m);
    RowBounds(n - 1, n, m);
    var init := graph[..n - 1];
    var a, b := NpyData(init, m), WrapRow(graph[n - 1][..m]);
    assert NpyData(graph, m) == a + b;
    if i < n - 1 {
      NpyDataRow(init, m, i);
      RowBounds(i, n - 1, m);
      assert (a + b)[i * m..(i + 1) * m] == a[i * m..(i + 1) * m];
    } else {
      assert (a + b)[i * m..(i + 1) * m] == b;
    }
  }

  /** Row i of NpyRows is the i-th run of m values. */
  lemma {:induction false} NpyRowsRow(data: seq<Int32>, n: nat, m: nat, i: nat)
    requires n * m <= |data| && i < n
    ensures (i + 1) * m <= n * m
    ensures NpyRows(data, n, m)[i] == data[i * m..(i + 1) * m]
    decreases n
  {
    RowBounds(i, n, m);
    RowBounds(n - 1, n, m);
    if i < n - 1 {
      NpyRowsRow(data, n - 1, m, i);
    }
  }

  /** Reading the first n rows of a saved graph back gives them truncated to int32. */
  lemma NpyRoundTrip(graph: seq<seq<int>>, m: nat, n: nat)
    requires RowsHold(graph, m) && n <= |graph|
    ensures n * m <= |NpyData(graph, m)|
    ensures NpyRows(NpyData(graph, m), n, m) == seq(n, i requires 0 <= i < n => WrapRow(graph[i][..m]))
  {
    WithinRows(n, |graph|, m);
    forall i | 0 <= i < n
      ensures NpyRows(NpyData(graph, m), n, m)[i] == WrapRow(graph[i][..m])
    {
      NpyRowsRow(NpyData(graph, m), n, m, i);
      RowBounds(i, n, m);
      NpyDataRow(graph, m, i);
    }
  }

  // ---------------------------------------------------------------------
  // The .ivecs format
  // ---------------------------------------------------------------------

  /**
   * What LoadIvecsFile needs in order not to panic: a file that opens is
   * an .ivecs file with at least n vectors.
   */
  predicate IvecsReadable(files: Files, filename: string, n: nat) {
    filename in files ==> files[filename].Ivecs? && |files[filename].vectors| >= n
  }

  function IvecsFileGraph(files: Files, filename: string, n: nat): Result<Graph, LoadError>
    requires IvecsReadable(files, filename, n)
  {
    if filename in files then Ok(files[filename].vectors[..n]) else Err(Unreadable(filename))
  }

  // ---------------------------------------------------------------------
  // Dispatch
  // ---------------------------------------------------------------------

  /** What LoadGraphFromFile (and LoadIntMatrixFromFile) returns. */
  function GraphFromFile(files: Files, filename: string, n: nat, m: nat): Result<Graph, LoadError>
    requires Ext(filename) == ".ivecs" ==> IvecsReadable(files, filename, n)
  {
    var ext := Ext(filename);
    if ext == ".npy" then NpyFileGraph(files, filename, n, m)
    else if ext == ".txt" then TxtFileGraph(files, filename, n, m)
    else if ext == ".ivecs" then IvecsFileGraph(files, filename, n)
    else Err(UnknownExtension(ext))
  }

  /** What SaveGraphToNpyFile and SaveGraphToTxtFile index without a check: a first row, and no row shorter. */
  predicate Saveable(graph: seq<seq<int>>) {
    |graph| > 0 && RowsHold(graph, |graph[0]|)
  }

  /** The file system after SaveGraphToFile (and SaveIntMatrixToFile). */
  function SavedFiles(files: Files, filename: string, graph: seq<seq<int>>): Result<Files, LoadError>
    requires Ext(filename) in GraphSaveExts ==> Saveable(graph)
  {
    var ext := Ext(filename);
    if ext == ".npy" then
      Ok(files[filename := NpyInt32([|graph|, |graph[0]|], NpyData(graph, |graph[0]|))])
    else if ext == ".txt" then
      Ok(files[filename := Text(GraphText(graph, |graph[0]|))])
    else Err(UnknownExtension(ext))
  }

  /** An extension no case names is refused by all three dispatches with the same error, and nothing is written. */
  lemma UnknownEverywhere(files: Files, filename: string, graph: seq<seq<int>>, n: nat, m: nat)
    requires Ext(filename) !in GraphLoadExts + FloatLoadExts
    ensures GraphFromFile(files, filename, n, m) == Err(UnknownExtension(Ext(filename)))
    ensures FloatReaderFor(filename) == Err(UnknownExtension(Ext(filename)))
    ensures SavedFiles(files, filename, graph) == Err(UnknownExtension(Ext(filename)))
  {
  }

  // ---------------------------------------------------------------------
  // The round trip
  // ---------------------------------------------------------------------

  /** A rectangular graph: every row holds exactly m values. */
  predicate Rectangular(graph: seq<seq<int>>, m: nat) {
    forall i | 0 <= i < |graph| :: |graph[i]| == m
  }

  predicate FitsInt32(graph: seq<seq<int>>) {
    forall i, j | 0 <= i < |graph| && 0 <= j < |graph[i]| :: -0x8000_0000 <= graph[i][j] < 0x8000_0000
  }

  /**
   * Saving a rectangular graph to a .txt or .npy file and loading its
   * first n rows back gives those rows; a .npy file keeps only values that
   * fit an int32.
   */
  lemma SaveLoadRoundTrip(files: Files, filename: string, graph: Graph, n: nat)
    requires Ext(filename) in GraphSaveExts && Saveable(graph) && Rectangular(graph, |graph[0]|)
    requires n <= |graph|
    requires Ext(filename) == ".npy" ==> FitsInt32(graph)
    ensures SavedFiles(files, filename, graph).Ok?
    ensures GraphFromFile(SavedFiles(files, filename, graph).value, filename, n, |graph[0]|) == Ok(graph[..n])
  {
    if Ext(filename) == ".npy" {
      NpySaveLoad(files, filename, graph, n);
    } else {
      TxtSaveLoad(files, filename, graph, n);
    }
  }

  lemma NpySaveLoad(files: Files, filename: string, graph: Graph, n: nat)
    requires Ext(filename) == ".npy" && Saveable(graph) && Rectangular(graph, |graph[0]|)
    requires n <= |graph| && FitsInt32(graph)
    ensures SavedFiles(files, filename, graph).Ok?
    ensures GraphFromFile(SavedFiles(files, filename, graph).value, filename, n, |graph[0]|) == Ok(graph[..n])
  {
    var m := |graph[0]|;
    var data := NpyData(graph, m);
    var saved := files[filename := NpyInt32([|graph|, m], data)];
    assert SavedFiles(files, filename, graph) == Ok(saved);
    NpyRoundTrip(graph, m, n);
    var rows := NpyRows(data, n, m);
    assert NpyGraph(filename, [|graph|, m], data, n, m) == Ok(rows);
    forall i | 0 <= i < n
      ensures rows[i] == graph[i]
    {
      assert graph[i][..m] == graph[i];
    }
    assert rows == graph[..n];
  }

  lemma TxtSaveLoad(files: Files, filename: string, graph: Graph, n: nat)
    requires Ext(filename) == ".txt" && Saveable(graph) && Rectangular(graph, |graph[0]|)
    requires n <= |graph|
    ensures SavedFiles(files, filename, graph).Ok?
    ensures GraphFromFile(SavedFiles(files, filename, graph).value, filename, n, |graph[0]|) == Ok(graph[..n])
  {
    var m := |graph[0]|;
    var text := GraphText(graph, m);
    var saved := files[filename := Text(text)];
    assert SavedFiles(files, filename, graph) == Ok(saved);
    TxtRoundTrip(graph, m, n);
    assert graph[..n] + seq(0, _ => ZeroRow(m)) == graph[..n];
    assert GraphFromFile(saved, filename, n, m) == TxtGraph(text, n, m);
  }

  /** Loading n rows from the text of a rectangular graph gives its first n rows, padded with zero rows. */
  lemma TxtRoundTrip(graph: Graph, m: nat, n: nat)
    requires Rectangular(graph, m)
    ensures var k := Min(n, |graph|);
      TxtGraph(GraphText(graph, m), n, m) == Ok(graph[..k] + seq(n - k, _ => ZeroRow(m)))
  {
    GraphTextLines(graph, m);
    ParseGraphLines(graph, m, Min(n, |graph|));
  }

  /** The lines of a saved graph are the texts of its rows. */
  lemma {:induction false} GraphTextLines(graph: seq<seq<int>>, m: nat)
    requires RowsHold(graph, m)
    ensures Lines(GraphText(graph, m)) == RowTexts(graph, m)
  {
    if graph != [] {
      var init := graph[..|graph| - 1];
      GraphTextLines(init, m);
      LinesSnoc(GraphText(init, m), RowText(graph[|graph| - 1][..m]));
    }
  }

  /** One more line ended by a newline adds one line to the scan. */
  lemma LinesSnoc(a: string, line: string)
    requires a == [] || a[|a| - 1] == '\n'
    requires forall k | 0 <= k < |line| :: line[k] != '\n'
    requires line == [] || line[|line| - 1] != '\r'
    ensures Lines(a + line + "\n") == Lines(a) + [line]
  {
    LinesAppend(a, line + "\n");
    LinesCons(line, []);
    assert line + "\n" + [] == line + "\n";
    AppendAssoc(a, line, "\n");
  }

  /** Text that ends in a newline is scanned independently of what follows it. */
  lemma {:induction false} LinesAppend(a: string, b: string)
    requires a == [] || a[|a| - 1] == '\n'
    ensures Lines(a + b) == Lines(a) + Lines(b)
    decreases |a|
  {
    if a == [] {
      assert a + b == b;
    } else {
      var k := LineEnd(a);
      assert k < |a| by {
        assert a[|a| - 1] == '\n';
      }
      LineEndAppend(a, b);
      assert (a + b)[..k] == a[..k];
      assert (a + b)[k + 1..] == a[k + 1..] + b;
      LinesAppend(a[k + 1..], b);
    }
  }

  lemma {:induction false} LineEndAppend(a: string, b: string)
    requires LineEnd(a) < |a|
    ensures LineEnd(a + b) == LineEnd(a)
  {
    if a[0] != '\n' {
      assert (a + b)[1..] == a[1..] + b;
      LineEndAppend(a[1..], b);
    }
  }

  /** The fields of a saved row are the decimal forms of its values. */
  lemma {:induction false} RowFields(row: seq<int>)
    ensures Fields(RowText(row)) == Formatted(row)
  {
    if row != [] {
      var init, x := row[..|row| - 1], row[|row| - 1];
      RowFields(init);
      FieldsAppend(RowText(init), Token(x));
      FieldsOfWord(FormatInt(x));
    }
  }

  /** Parsing the decimal forms of a row gives the row. */
  lemma {:induction false} ParseFormatted(row: seq<Int64>, line: nat)
    ensures ParseFields(Formatted(row), line) == Ok(row)
  {
    if row != [] {
      var n := |row|;
      var init, last := row[..n - 1], row[n - 1];
      assert row == init + row[n - 1..] && row[n - 1..] == [last];
      ParseFormatted(init, line);
      assert Formatted(row)[..n - 1] == Formatted(init);
      AtoiFormatInt(last);
    }
  }

  /** The first k lines of a saved rectangular graph parse to its first k rows. */
  lemma ParseGraphLines(graph: Graph, m: nat, k: nat)
    requires Rectangular(graph, m) && k <= |graph|
    ensures ParseLines(RowTexts(graph, m), k, m) == Ok(graph[..k])
  {
    var lines := RowTexts(graph, m);
    forall i | 0 <= i < k
      ensures ParseLine(lines[i], m, i) == Ok(graph[i])
    {
      LineOfRow(graph, m, i);
    }
    ParseLinesOf(lines, graph, k, m);
  }

  /** Line i of a saved rectangular graph parses to row i. */
  lemma LineOfRow(graph: Graph, m: nat, i: nat)
    requires Rectangular(graph, m) && i < |graph|
    ensures ParseLine(RowTexts(graph, m)[i], m, i) == Ok(graph[i])
  {
    var row := graph[i];
    RowTextsAt(graph, m, i);
    assert row[..m] == row;
    RowFields(row);
    ParseFormatted(row, i + 1);
  }

  /** Lines that each parse to the corresponding row parse, together, to those rows. */
  lemma {:induction false} ParseLinesOf(lines: seq<string>, rows: Graph, k: nat, m: nat)
    requires k <= |lines| && k <= |rows|
    requires forall i | 0 <= i < k :: ParseLine(lines[i], m, i) == Ok(rows[i])
    ensures ParseLines(lines, k, m) == Ok(rows[..k])
  {
    if k > 0 {
      ParseLinesOf(lines, rows, k - 1, m);
      assert rows[..k] == rows[..k - 1] + rows[k - 1..k] && rows[k - 1..k] == [rows[k - 1]];
    }
  }

  lemma {:induction false} RowTextsAt(graph: seq<seq<int>>, m: nat, i: nat)
    requires RowsHold(graph, m) && i < |graph|
    ensures RowTexts(graph, m)[i] == RowText(graph[i][..m])
  {
    if i < |graph| - 1 {
      RowTextsAt(graph[..|graph| - 1], m, i);
    }
  }

  // ---------------------------------------------------------------------
  // The loaders and savers
  // ---------------------------------------------------------------------

  /**
   * LoadGraphFromTxtFile: n zero rows of m values, then the scanner loop
   * that parses at most n lines into them, returning at the first line
   * with the wrong number of fields or the first field Atoi rejects.
   */
  method LoadGraphFromTxtFile(files: Files, filename: string, n: nat, m: nat) returns (r: Result<Graph, LoadError>)
    ensures r == TxtFileGraph(files, filename, n, m)
  {
    if filename !in files || !files[filename].Text? {
      return Err(Unreadable(filename));
    }
    ghost var text := files[filename].text;
    assert TxtFileGraph(files, filename, n, m) == TxtGraph(text, n, m);
    var lines := Lines(files[filename].text);
    var graph: Graph := seq(n, _ => ZeroRow(m));
    var i := 0;
    while i < n && i < |lines|
      invariant LinesLoaded(lines, m, n, i, graph)
    {
      var fields := Fields(lines[i]);
      assert ParseLine(lines[i], m, i) == if |fields| != m then Err(FieldCount(i + 1, |fields|, m)) else ParseFields(fields, i + 1);
      if |fields| != m {
        LineFails(text, n, m, i, graph);
        return Err(FieldCount(i + 1, |fields|, m));
      }
      var row := ParseRow(fields, i + 1);
      if row.Err? {
        LineFails(text, n, m, i, graph);
        return Err(row.error);
      }
      LineStep(lines, m, n, i, graph, row.value);
      graph := graph[i := row.value];
      i := i + 1;
    }
    LinesDone(text, n, m, graph);
    r := Ok(graph);
  }

  /** The first i lines are parsed into graph, and its other rows are still zero. */
  predicate LinesLoaded(lines: seq<string>, m: nat, n: nat, i: nat, graph: Graph) {
    && i <= n && i <= |lines|
    && ParseLines(lines, i, m).Ok?
    && graph == ParseLines(lines, i, m).value + seq(n - i, _ => ZeroRow(m))
  }

  lemma LineStep(lines: seq<string>, m: nat, n: nat, i: nat, graph: Graph, row: seq<Int64>)
    requires LinesLoaded(lines, m, n, i, graph) && i < n && i < |lines|
    requires ParseLine(lines[i], m, i) == Ok(row)
    ensures LinesLoaded(lines, m, n, i + 1, graph[i := row])
  {
    var rows := ParseLines(lines, i, m).value;
    assert ParseLines(lines, i + 1, m).value == rows + [row];
    assert graph[i := row] == rows + [row] + seq(n - (i + 1), _ => ZeroRow(m));
  }

  lemma LineFails(text: string, n: nat, m: nat, i: nat, graph: Graph)
    requires LinesLoaded(Lines(text), m, n, i, graph) && i < n && i < |Lines(text)|
    requires ParseLine(Lines(text)[i], m, i).Err?
    ensures TxtGraph(text, n, m) == Err(ParseLine(Lines(text)[i], m, i).error)
  {
    ParseLinesStop(Lines(text), i + 1, Min(n, |Lines(text)|), m);
  }

  lemma LinesDone(text: string, n: nat, m: nat, graph: Graph)
    requires var lines := Lines(text); LinesLoaded(lines, m, n, Min(n, |lines|), graph)
    ensures TxtGraph(text, n, m) == Ok(graph)
  {
  }

  /**
   * The inner loop of LoadGraphFromTxtFile: the fields of line number
   * `line` parsed into a fresh row, stopping at the first that fails.
   */
  method ParseRow(fields: seq<string>, line: nat) returns (r: Result<seq<Int64>, LoadError>)
    ensures r == ParseFields(fields, line)
  {
    var row: seq<Int64> := ZeroRow(|fields|);
    for j := 0 to |fields|
      invariant FieldsParsed(fields, line, j, row)
    {
      var value := Atoi(fields[j]);
      if value.None? {
        FieldFails(fields, line, j, row);
        return Err(BadField(j + 1, line));
      }
      FieldStep(fields, line, j, row, value.value);
      row := row[j := value.value];
    }
    FieldsDone(fields, line, row);
    return Ok(row);
  }

  /** The first j fields are parsed into the first j values of row. */
  predicate FieldsParsed(fields: seq<string>, line: nat, j: nat, row: seq<Int64>) {
    && j <= |fields| && |row| == |fields|
    && ParseFields(fields[..j], line).Ok?
    && row[..j] == ParseFields(fields[..j], line).value
  }

  lemma FieldStep(fields: seq<string>, line: nat, j: nat, row: seq<Int64>, v: Int64)
    requires FieldsParsed(fields, line, j, row) && j < |fields| && Atoi(fields[j]) == Some(v)
    ensures FieldsParsed(fields, line, j + 1, row[j := v])
  {
    assert fields[..j + 1][..j] == fields[..j];
    assert row[j := v][..j + 1] == row[..j] + [v];
  }

  lemma FieldFails(fields: seq<string>, line: nat, j: nat, row: seq<Int64>)
    requires FieldsParsed(fields, line, j, row) && j < |fields| && Atoi(fields[j]).None?
    ensures ParseFields(fields, line) == Err(BadField(j + 1, line))
  {
    assert fields[..j + 1][..j] == fields[..j];
    ParseFieldsStop(fields, j + 1, line);
  }

  lemma FieldsDone(fields: seq<string>, line: nat, row: seq<Int64>)
    requires FieldsParsed(fields, line, |fields|, row)
    ensures ParseFields(fields, line) == Ok(row)
  {
    assert fields[..|fields|] == fields;
    assert row[..|row|] == row;
  }

  /**
   * LoadGraphFromNpyFile: the shape check, then n rows of m values copied
   * out of the row-major int32 array.
   */
  method LoadGraphFromNpyFile(files: Files, filename: string, n: nat, m: nat) returns (r: Result<Graph, LoadError>)
    ensures r == NpyFileGraph(files, filename, n, m)
  {
    if filename !in files || !files[filename].NpyInt32? {
      return Err(Unreadable(filename));
    }
    var shape, data := files[filename].shape, files[filename].data;
    if |shape| != 2 || shape[0] < n || shape[1] != m {
      return Err(InvalidShape(shape));
    }
    if |data| != shape[0] * shape[1] {
      return Err(Unreadable(filename));
    }
    WithinRows(n, shape[0], m);
    var ret: Graph := seq(n, _ => []);
    for i := 0 to n
      invariant RowsCopied(data, m, n, i, ret)
    {
      RowBounds(i, n, m);
      var base := i * m;
      var row: seq<Int64> := seq(m, _ => 0);
      for j := 0 to m
        invariant |row| == m && row[..j] == data[base..base + j]
      {
        row := row[j := data[base + j]];
        assert row[..j + 1] == data[base..base + j] + [data[base + j]];
      }
      assert row == row[..m];
      CopyRowStep(data, m, n, i, ret, row);
      ret := ret[i := row];
    }
    assert ret == ret[..n];
    r := Ok(ret);
  }

  /** The first i rows of ret are the first i rows of the array. */
  predicate RowsCopied(data: seq<Int32>, m: nat, n: nat, i: nat, ret: Graph) {
    i <= n && |ret| == n && n * m <= |data| && i * m <= |data| && ret[..i] == NpyRows(data, i, m)
  }

  lemma CopyRowStep(data: seq<Int32>, m: nat, n: nat, i: nat, ret: Graph, row: seq<Int64>)
    requires RowsCopied(data, m, n, i, ret) && i < n
    requires (i + 1) * m <= n * m && row == data[i * m..(i + 1) * m]
    ensures RowsCopied(data, m, n, i + 1, ret[i := row])
  {
    assert ret[i := row][..i + 1] == ret[..i] + [row];
  }

  /** LoadIvecsFile: the first n vectors of the file, each copied value by value into a row of ints. */
  method LoadIvecsFile(files: Files, filename: string, n: nat) returns (r: Result<Graph, LoadError>)
    requires IvecsReadable(files, filename, n)
    ensures r == IvecsFileGraph(files, filename, n)
  {
    if filename !in files {
      return Err(Unreadable(filename));
    }
    var vectors := files[filename].vectors;
    var ret: Graph := seq(n, _ => []);
    for i := 0 to n
      invariant |ret| == n && ret[..i] == vectors[..i]
    {
      var v := vectors[i];
      var row: seq<Int64> := seq(|v|, _ => 0);
      for j := 0 to |v|
        invariant |row| == |v| && row[..j] == v[..j]
      {
        row := row[j := v[j]];
        assert row[..j + 1] == v[..j] + [v[j]];
      }
      assert row == v;
      assert ret[i := row][..i + 1] == ret[..i] + [row];
      ret := ret[i := row];
    }
    assert ret == ret[..n];
    r := Ok(ret);
  }

  /** LoadGraphFromFile (and LoadIntMatrixFromFile): the loader for the file's extension. */
  method LoadGraphFromFile(files: Files, filename: string, n: nat, m: nat) returns (r: Result<Graph, LoadError>)
    requires Ext(filename) == ".ivecs" ==> IvecsReadable(files, filename, n)
    ensures r == GraphFromFile(files, filename, n, m)
  {
    var ext := Ext(filename);
    if ext == ".npy" {
      r := LoadGraphFromNpyFile(files, filename, n, m);
    } else if ext == ".txt" {
      r := LoadGraphFromTxtFile(files, filename, n, m);
    } else if ext == ".ivecs" {
      r := LoadIvecsFile(files, filename, n);
    } else {
      r := Err(UnknownExtension(ext));
    }
  }

  /**
   * SaveGraphToTxtFile: n = len(graph) and m = len(graph[0]); every row's
   * first m values, each written with "%d ", then a newline.
   */
  method SaveGraphToTxtFile(files: Files, filename: string, graph: seq<seq<int>>) returns (saved: Files)
    requires Saveable(graph)
    ensures saved == files[filename := Text(GraphText(graph, |graph[0]|))]
  {
    var n, m := |graph|, |graph[0]|;
    var text := "";
    for i := 0 to n
      invariant RowsWritten(graph, m, i, text)
    {
      TokensStart(graph, m, i, text);
      for j := 0 to m
        invariant TokensWritten(graph, m, i, j, text)
      {
        TokenStep(graph, m, i, j, text);
        text := text + Token(graph[i][j]);
      }
      NewlineStep(graph, m, i, text);
      text := text + "\n";
    }
    WrittenAll(graph, m, text);
    saved := files[filename := Text(text)];
  }

  /** The text holds the first i rows. */
  predicate RowsWritten(graph: seq<seq<int>>, m: nat, i: nat, text: string) {
    RowsHold(graph, m) && i <= |graph| && text == GraphText(graph[..i], m)
  }

  /** The text holds the first i rows and the first j tokens of row i. */
  predicate TokensWritten(graph: seq<seq<int>>, m: nat, i: nat, j: nat, text: string) {
    && RowsHold(graph, m) && i < |graph| && j <= m
    && text == GraphText(graph[..i], m) + RowText(graph[i][..j])
  }

  lemma TokensStart(graph: seq<seq<int>>, m: nat, i: nat, text: string)
    requires RowsWritten(graph, m, i, text) && i < |graph|
    ensures TokensWritten(graph, m, i, 0, text)
  {
    assert graph[i][..0] == [];
  }

  lemma TokenStep(graph: seq<seq<int>>, m: nat, i: nat, j: nat, text: string)
    requires TokensWritten(graph, m, i, j, text) && j < m
    ensures TokensWritten(graph, m, i, j + 1, text + Token(graph[i][j]))
  {
    var row := graph[i];
    assert row[..j + 1][..j] == row[..j];
    assert RowText(row[..j + 1]) == RowText(row[..j]) + Token(row[j]);
    AppendAssoc(GraphText(graph[..i], m), RowText(row[..j]), Token(row[j]));
  }

  lemma NewlineStep(graph: seq<seq<int>>, m: nat, i: nat, text: string)
    requires TokensWritten(graph, m, i, m, text)
    ensures RowsWritten(graph, m, i + 1, text + "\n")
  {
    GraphTextSnoc(graph, m, i);
  }

  lemma GraphTextSnoc(graph: seq<seq<int>>, m: nat, i: nat)
    requires RowsHold(graph, m) && i < |graph|
    ensures GraphText(graph[..i + 1], m) == GraphText(graph[..i], m) + RowText(graph[i][..m]) + "\n"
  {
    var g := graph[..i + 1];
    assert g[..i] == graph[..i];
    assert g[i] == graph[i];
  }

  lemma AppendAssoc(a: string, b: string, c: string)
    ensures (a + b) + c == a + (b + c)
  {
  }

  lemma WrittenAll(graph: seq<seq<int>>, m: nat, text: string)
    requires RowsWritten(graph, m, |graph|, text)
    ensures text == GraphText(graph, m)
  {
    assert graph[..|graph|] == graph;
  }

  /**
   * SaveGraphToNpyFile: n = len(graph) and m = len(graph[0]); value j of
   * row i goes, truncated to int32, to position i * m + j of an array of
   * shape (n, m).
   */
  method SaveGraphToNpyFile(files: Files, filename: string, graph: seq<seq<int>>) returns (saved: Files)
    requires Saveable(graph)
    ensures saved == files[filename := NpyInt32([|graph|, |graph[0]|], NpyData(graph, |graph[0]|))]
  {
    var n, m := |graph|, |graph[0]|;
    var data: seq<Int32> := seq(n * m, _ => 0);
    for i := 0 to n
      invariant RowsFilled(graph, m, i, data)
    {
      RowStart(graph, m, i, data);
      for j := 0 to m
        invariant CellsFilled(graph, m, i, j, data)
      {
        CellStep(graph, m, i, j, data);
        data := data[i * m + j := Wrap32(graph[i][j])];
      }
      RowEnd(graph, m, i, data);
    }
    FilledAll(graph, m, data);
    saved := files[filename := NpyInt32([n, m], data)];
  }

  /** The first i rows are in place. */
  predicate RowsFilled(graph: seq<seq<int>>, m: nat, i: nat, data: seq<Int32>) {
    && RowsHold(graph, m) && i <= |graph| && |data| == |graph| * m
    && i * m <= |data| && data[..i * m] == NpyData(graph[..i], m)
  }

  /** The first i rows and the first j values of row i are in place. */
  predicate CellsFilled(graph: seq<seq<int>>, m: nat, i: nat, j: nat, data: seq<Int32>) {
    && RowsHold(graph, m) && i < |graph| && j <= m && |data| == |graph| * m
    && i * m + m <= |data| && data[..i * m + j] == NpyData(graph[..i], m) + WrapRow(graph[i][..j])
  }

  lemma RowStart(graph: seq<seq<int>>, m: nat, i: nat, data: seq<Int32>)
    requires RowsFilled(graph, m, i, data) && i < |graph|
    ensures CellsFilled(graph, m, i, 0, data)
  {
    RowBounds(i, |graph|, m);
    assert graph[i][..0] == [];
  }

  lemma CellStep(graph: seq<seq<int>>, m: nat, i: nat, j: nat, data: seq<Int32>)
    requires CellsFilled(graph, m, i, j, data) && j < m
    ensures i * m + j < |data|
    ensures CellsFilled(graph, m, i, j + 1, data[i * m + j := Wrap32(graph[i][j])])
  {
    var k := i * m + j;
    var d := data[k := Wrap32(graph[i][j])];
    assert d[..k + 1] == data[..k] + [Wrap32(graph[i][j])];
    assert WrapRow(graph[i][..j + 1]) == WrapRow(graph[i][..j]) + [Wrap32(graph[i][j])];
  }

  lemma RowEnd(graph: seq<seq<int>>, m: nat, i: nat, data: seq<Int32>)
    requires CellsFilled(graph, m, i, m, data)
    ensures RowsFilled(graph, m, i + 1, data)
  {
    assert (i + 1) * m == i * m + m;
    assert graph[..i + 1][..i] == graph[..i];
    assert graph[..i + 1][i] == graph[i];
  }

  lemma FilledAll(graph: seq<seq<int>>, m: nat, data: seq<Int32>)
    requires RowsFilled(graph, m, |graph|, data)
    ensures data == NpyData(graph, m)
  {
    assert graph[..|graph|] == graph;
    assert data[..|graph| * m] == data;
  }

  /** SaveGraphToFile (and SaveIntMatrixToFile): the saver for the file's extension. */
  method SaveGraphToFile(files: Files, filename: string, graph: seq<seq<int>>) returns (r: Result<Files, LoadError>)
    requires Ext(filename) in GraphSaveExts ==> Saveable(graph)
    ensures r == SavedFiles(files, filename, graph)
  {
    var ext := Ext(filename);
    if ext == ".npy" {
      var saved := SaveGraphToNpyFile(files, filename, graph);
      r := Ok(saved);
    } else if ext == ".txt" {
      var saved := SaveGraphToTxtFile(files, filename, graph);
      r := Ok(saved);
    } else {
      r := Err(UnknownExtension(ext));
    }
  }
}
