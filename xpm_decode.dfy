/**
 * `stripQuotes` and `parseXPM` (xpm/xpm.go:23-64, 215-225): the decoder
 * keeps the lines that start with a double quote, reads the first as the
 * header, the next `ncolors` as colour lines and the rest as pixel rows.
 *
 * `Decode` states the result by phase; the method `ParseXPM` is the
 * line-by-line state machine of the source, proved to compute it.
 */
module XpmDecode {
  import opened Wrappers
  import opened GoStrings
  import opened XpmTypes
  import opened XpmHeader
  import opened XpmPalette
  import opened XpmPixels

  /**
   * `stripQuotes`: a line that starts with a quote loses it and everything
   * from the next quote on; any other line is returned as it is.
   */
  function StripQuotes(data: string): (r: string)
    ensures data == [] || data[0] != '"' ==> r == data
    ensures data != [] && data[0] == '"' ==>
              '"' !in r && |r| < |data| && r == data[1..1 + |r|]
              && (1 + |r| == |data| || data[1 + |r|] == '"')
  {
    if |data| == 0 || data[0] != '"' then data
    else
      var end := IndexOf(data[1..], '"');
      if end == -1 then data[1..] else data[1..end + 1]
  }

  /** The first example of xpm/xpm_test.go:66-70: the text between the quotes. */
  lemma StripQuotesExample()
    ensures StripQuotes("\"hello\"") == "hello"
  {
    StripQuotesAt("\"hello\"", 6);
  }

  /** The second example of xpm/xpm_test.go:66-70: the comma after the closing quote is dropped. */
  lemma StripQuotesCommaExample()
    ensures StripQuotes("\"hello\",") == "hello"
  {
    StripQuotesAt("\"hello\",", 6);
  }

  /** The third example of xpm/xpm_test.go:66-70: two quotes strip to the empty line. */
  lemma StripQuotesEmptyExample()
    ensures StripQuotes("\"\"") == ""
  {
    StripQuotesAt("\"\"", 1);
  }

  /** A line opening with a quote whose next quote is at `n` strips to the text between them. */
  lemma StripQuotesAt(data: string, n: nat)
    requires 1 <= n < |data| && data[0] == '"' && data[n] == '"'
    requires forall j :: 0 < j < n ==> data[j] != '"'
    ensures StripQuotes(data) == data[1..n]
  {
    var s := data[1..];
    forall j | 0 <= j < n - 1
      ensures s[j] != '"'
    {
      assert s[j] == data[j + 1];
    }
    FirstIndex(s, '"', n - 1);
  }

  /** The lines the decoder reads: those that start with a double quote (xpm/xpm.go:33). */
  predicate IsQuoted(line: string) {
    line != [] && line[0] == '"'
  }

  /** The quoted lines of the input, in order, with their quotes stripped. */
  function Kept(lines: seq<string>): (k: seq<string>)
    ensures |k| <= |lines|
    ensures forall j :: 0 <= j < |k| ==> '"' !in k[j]
  {
    if lines == [] then []
    else
      var last := lines[|lines| - 1];
      Kept(lines[..|lines| - 1]) + (if IsQuoted(last) then [StripQuotes(last)] else [])
  }

  /** When every line is quoted, the kept lines are all of them, in order, with their quotes stripped. */
  lemma {:induction false} KeptAllQuoted(lines: seq<string>)
    requires forall j :: 0 <= j < |lines| ==> IsQuoted(lines[j])
    ensures |Kept(lines)| == |lines|
    ensures forall j :: 0 <= j < |lines| ==> Kept(lines)[j] == StripQuotes(lines[j])
  {
    if lines != [] {
      var n := |lines| - 1;
      var pre, last := lines[..n], lines[n];
      assert forall j :: 0 <= j < n ==> pre[j] == lines[j];
      KeptAllQuoted(pre);
      KeptOne(last);
      assert lines == pre + [last];
      KeptAppend(pre, [last]);
    }
  }

  lemma KeptOne(line: string)
    requires IsQuoted(line)
    ensures Kept([line]) == [StripQuotes(line)]
  {
    assert [line][..0] == [];
  }

  lemma {:induction false} KeptAppend(a: seq<string>, b: seq<string>)
    ensures Kept(a + b) == Kept(a) + Kept(b)
  {
    if b == [] {
      assert a + b == a;
    } else {
      var n := |b| - 1;
      assert (a + b)[..|a + b| - 1] == a + b[..n];
      KeptAppend(a, b[..n]);
    }
  }

  /** A line that does not start with a quote is skipped wherever it stands. */
  lemma UnquotedLineSkipped(a: seq<string>, line: string, b: seq<string>)
    requires !IsQuoted(line)
    ensures Kept(a + [line] + b) == Kept(a + b)
  {
    KeptAppend(a + [line], b);
    KeptAppend(a, [line]);
    KeptAppend(a, b);
    assert Kept([line]) == [] by {
      assert [line][..0] == [];
    }
  }

  /** The header's sizes are all non-negative, as every header the decoder accepts has them. */
  predicate NonNegative(d: Dimensions) {
    0 <= d.width && 0 <= d.height && 0 <= d.colors && 0 <= d.cpp
  }

  /** How many of the kept lines after the header are colour lines: `ncolors` of them, or all there are. */
  function ColorLineCount(body: seq<string>, d: Dimensions): (n: nat)
    requires d.colors >= 0
    ensures n <= |body|
    ensures n == d.colors || n == |body|
  {
    if |body| < d.colors then |body| else d.colors
  }

  /** What `parseColor` gives for one colour line: its key and colour, or its error. */
  type Outcome = Result<(string, Color), Error>

  /** The outcome of each colour line, in order. */
  function Outcomes(cl: seq<string>, cs: nat, names: map<string, Color>): (rs: seq<Outcome>)
    ensures |rs| == |cl|
  {
    if cl == [] then []
    else Outcomes(cl[..|cl| - 1], cs, names) + [ParseColor(cl[|cl| - 1], cs, names)]
  }

  /** Outcome `j` is line `j`'s. */
  lemma {:induction false} OutcomeAt(cl: seq<string>, cs: nat, names: map<string, Color>, j: nat)
    requires j < |cl|
    ensures Outcomes(cl, cs, names)[j] == ParseColor(cl[j], cs, names)
  {
    var n := |cl| - 1;
    if j < n {
      OutcomeAt(cl[..n], cs, names, j);
    }
  }

  lemma OutcomesSnoc(cl: seq<string>, s: string, cs: nat, names: map<string, Color>)
    ensures Outcomes(cl + [s], cs, names) == Outcomes(cl, cs, names) + [ParseColor(s, cs, names)]
  {
    assert (cl + [s])[..|cl|] == cl;
  }

  lemma {:induction false} OutcomesAppend(a: seq<string>, b: seq<string>, cs: nat, names: map<string, Color>)
    ensures Outcomes(a + b, cs, names) == Outcomes(a, cs, names) + Outcomes(b, cs, names)
  {
    if b == [] {
      assert a + b == a;
    } else {
      var n := |b| - 1;
      OutcomesAppend(a, b[..n], cs, names);
      assert a + b == (a + b[..n]) + [b[n]];
      OutcomesSnoc(a + b[..n], b[n], cs, names);
    }
  }

  /**
   * The table of xpm/xpm.go:46-54 from the outcomes of the colour lines, in
   * order: every definition with a non-empty key entered under that key, or
   * the first error.
   */
  function Collect(rs: seq<Outcome>): Result<map<string, Color>, Error>
  {
    if rs == [] then Ok(map[])
    else
      var n := |rs| - 1;
      match Collect(rs[..n])
      case Err(e) => Err(e)
      case Ok(t) =>
        match rs[n]
        case Err(e) => Err(e)
        case Ok((id, c)) => Ok(if id != "" then t[id := c] else t)
  }

  /**
   * The colour table of the colour lines `cl`: the first failing line's
   * error, or a table whose keys are the non-empty keys the lines define.
   */
  function BuildTable(cl: seq<string>, cs: nat, names: map<string, Color>): (r: Result<map<string, Color>, Error>)
    ensures r.Err? <==> exists j :: 0 <= j < |cl| && ParseColor(cl[j], cs, names).Err?
    ensures r.Err? ==>
              exists j :: 0 <= j < |cl| && ParseColor(cl[j], cs, names) == Err(r.error) &&
                forall i :: 0 <= i < j ==> ParseColor(cl[i], cs, names).Ok?
    ensures r.Ok? ==> forall key :: key in r.value <==> exists j :: 0 <= j < |cl| && Enters(ParseColor(cl[j], cs, names), key)
  {
    var rs := Outcomes(cl, cs, names);
    OutcomesAll(cl, cs, names);
    TableFails(rs);
    if Collect(rs).Ok? then
      TableKeys(rs);
      Collect(rs)
    else Collect(rs)
  }

  /** Every outcome is its line's. */
  lemma OutcomesAll(cl: seq<string>, cs: nat, names: map<string, Color>)
    ensures forall j :: 0 <= j < |cl| ==> Outcomes(cl, cs, names)[j] == ParseColor(cl[j], cs, names)
  {
    forall j | 0 <= j < |cl|
      ensures Outcomes(cl, cs, names)[j] == ParseColor(cl[j], cs, names)
    {
      OutcomeAt(cl, cs, names, j);
    }
  }

  /** The table fails exactly when some colour line fails, and then with the first failing line's error. */
  lemma {:induction false} TableFails(rs: seq<Outcome>)
    ensures Collect(rs).Err? <==> exists j :: 0 <= j < |rs| && rs[j].Err?
    ensures Collect(rs).Err? ==>
              exists j :: 0 <= j < |rs| && rs[j] == Err(Collect(rs).error) && forall i :: 0 <= i < j ==> rs[i].Ok?
  {
    if rs != [] {
      var n := |rs| - 1;
      var pre := rs[..n];
      assert forall j :: 0 <= j < n ==> pre[j] == rs[j];
      TableFails(pre);
    }
  }

  /** Outcome `r` enters a definition for `key`. */
  predicate Enters(r: Outcome, key: string) {
    r.Ok? && key != "" && r.value.0 == key
  }

  /** Some outcome of `rs` enters `key`. */
  predicate EnteredIn(rs: seq<Outcome>, key: string) {
    exists j :: 0 <= j < |rs| && Enters(rs[j], key)
  }

  /** Outcome `j` enters `key` and no later one does. */
  predicate LastEnters(rs: seq<Outcome>, j: int, key: string)
    requires 0 <= j < |rs|
  {
    Enters(rs[j], key) && forall i :: j < i < |rs| ==> !Enters(rs[i], key)
  }

  lemma EnteredInSnoc(rs: seq<Outcome>, key: string)
    requires rs != []
    ensures EnteredIn(rs, key) <==> EnteredIn(rs[..|rs| - 1], key) || Enters(rs[|rs| - 1], key)
  {
    var n := |rs| - 1;
    if EnteredIn(rs, key) {
      var j :| 0 <= j < |rs| && Enters(rs[j], key);
      if j < n {
        assert rs[..n][j] == rs[j];
      }
    }
    if EnteredIn(rs[..n], key) {
      var j :| 0 <= j < n && Enters(rs[..n][j], key);
      assert rs[..n][j] == rs[j];
    }
  }

  /** In a table built without error, the keys are exactly those the colour lines define. */
  lemma {:induction false} TableKeys(rs: seq<Outcome>)
    requires Collect(rs).Ok?
    ensures forall key :: key in Collect(rs).value <==> EnteredIn(rs, key)
  {
    if rs != [] {
      var n := |rs| - 1;
      TableKeys(rs[..n]);
      forall key ensures key in Collect(rs).value <==> EnteredIn(rs, key) {
        EnteredInSnoc(rs, key);
      }
    }
  }

  /** In a table built without error, each key maps to the colour of the last line that defines it. */
  lemma {:induction false} LaterDefinitionWins(rs: seq<Outcome>)
    requires Collect(rs).Ok?
    ensures forall j, key :: 0 <= j < |rs| && LastEnters(rs, j, key) ==>
              key in Collect(rs).value && Collect(rs).value[key] == rs[j].value.1
  {
    if rs != [] {
      var n := |rs| - 1;
      var pre := rs[..n];
      LaterDefinitionWins(pre);
      forall j, key | 0 <= j < |rs| && LastEnters(rs, j, key)
        ensures key in Collect(rs).value && Collect(rs).value[key] == rs[j].value.1
      {
        if j < n {
          assert !Enters(rs[n], key);
          assert pre[j] == rs[j];
          assert forall i :: j < i < n ==> pre[i] == rs[i];
          assert LastEnters(pre, j, key);
        }
      }
    }
  }

  lemma {:induction false} TableKeepsError(a: seq<Outcome>, b: seq<Outcome>)
    requires Collect(a).Err?
    ensures Collect(a + b) == Collect(a)
  {
    if b != [] {
      var n := |b| - 1;
      assert (a + b)[..|a + b| - 1] == a + b[..n];
      TableKeepsError(a, b[..n]);
    } else {
      assert a + b == a;
    }
  }

  /** Once a colour line has failed, later colour lines do not change the outcome. */
  lemma BuildTableKeepsError(a: seq<string>, b: seq<string>, cs: nat, names: map<string, Color>)
    requires BuildTable(a, cs, names).Err?
    ensures BuildTable(a + b, cs, names) == BuildTable(a, cs, names)
  {
    OutcomesAppend(a, b, cs, names);
    TableKeepsError(Outcomes(a, cs, names), Outcomes(b, cs, names));
  }

  /** The check of every pixel row, in order; the first failing row's error. */
  function CheckRows(rows: seq<string>, cs: nat, w: nat, h: nat): Option<Error>
  {
    if rows == [] then None
    else
      var n := |rows| - 1;
      match CheckRows(rows[..n], cs, w, h)
      case Some(e) => Some(e)
      case None => RowError(rows[n], cs, n, w, h)
  }

  /** Every row fits: no row is short and, for an image with columns, there are at most `h` rows. */
  predicate RowsFit(rows: seq<string>, cs: nat, w: nat, h: nat) {
    forall j :: 0 <= j < |rows| ==> RowError(rows[j], cs, j, w, h).None?
  }

  /** The rows pass exactly when every row fits, and otherwise fail with the first failing row's error. */
  lemma {:induction false} CheckRowsFails(rows: seq<string>, cs: nat, w: nat, h: nat)
    ensures CheckRows(rows, cs, w, h).None? <==> RowsFit(rows, cs, w, h)
    ensures CheckRows(rows, cs, w, h).Some? ==>
              exists j :: 0 <= j < |rows| && RowError(rows[j], cs, j, w, h) == CheckRows(rows, cs, w, h)
                          && forall i :: 0 <= i < j ==> RowError(rows[i], cs, i, w, h).None?
  {
    if rows != [] {
      var n := |rows| - 1;
      assert forall j :: 0 <= j < n ==> rows[..n][j] == rows[j];
      CheckRowsFails(rows[..n], cs, w, h);
    }
  }

  lemma {:induction false} CheckRowsKeepsError(a: seq<string>, b: seq<string>, cs: nat, w: nat, h: nat)
    requires CheckRows(a, cs, w, h).Some?
    ensures CheckRows(a + b, cs, w, h) == CheckRows(a, cs, w, h)
  {
    if b != [] {
      var n := |b| - 1;
      assert (a + b)[..|a + b| - 1] == a + b[..n];
      CheckRowsKeepsError(a, b[..n], cs, w, h);
    } else {
      assert a + b == a;
    }
  }

  predicate RowsLongEnough(rows: seq<string>, cs: nat, w: nat) {
    forall j :: 0 <= j < |rows| ==> w * cs <= |rows[j]|
  }

  /** The bytes of the supplied pixel rows, one after the other. */
  function Painted(rows: seq<string>, cs: nat, w: nat, table: map<string, Color>): (p: seq<byte>)
    requires RowsLongEnough(rows, cs, w)
    ensures |p| == |rows| * (4 * w)
  {
    if rows == [] then []
    else
      var n := |rows| - 1;
      assert RowsLongEnough(rows[..n], cs, w) by {
        assert forall j :: 0 <= j < n ==> rows[..n][j] == rows[j];
      }
      MulSucc(n, 4 * w);
      Painted(rows[..n], cs, w, table) + RowBytes(rows[n], cs, w, table)
  }

  /** Row `r` of the painted bytes is row `r`'s pixel bytes. */
  lemma {:induction false} PaintedRow(rows: seq<string>, cs: nat, w: nat, table: map<string, Color>, r: nat)
    requires RowsLongEnough(rows, cs, w)
    requires r < |rows|
    ensures RowIs(Painted(rows, cs, w, table), r, 4 * w, RowBytes(rows[r], cs, w, table))
  {
    var n := |rows| - 1;
    var pre := rows[..n];
    assert RowsLongEnough(pre, cs, w) by {
      assert forall j :: 0 <= j < n ==> pre[j] == rows[j];
    }
    var a := Painted(pre, cs, w, table);
    var b := RowBytes(rows[n], cs, w, table);
    assert Painted(rows, cs, w, table) == a + b;
    if r < n {
      PaintedRow(pre, cs, w, table, r);
      assert pre[r] == rows[r];
      RowIsPrefix(a, b, r, 4 * w, RowBytes(rows[r], cs, w, table));
    } else {
      RowIsLast(a, b, n, 4 * w);
    }
  }

  /** A row of `a` is the same row of `a + b`. */
  lemma RowIsPrefix(a: seq<byte>, b: seq<byte>, r: nat, W: nat, bytes: seq<byte>)
    requires RowIs(a, r, W, bytes)
    ensures RowIs(a + b, r, W, bytes)
  {
    SliceOfLeft(a, b, r * W, (r + 1) * W);
  }

  /** After `n` rows of `W` bytes, `b` of `W` bytes is row `n`. */
  lemma RowIsLast(a: seq<byte>, b: seq<byte>, n: nat, W: nat)
    requires |a| == n * W && |b| == W
    ensures RowIs(a + b, n, W, b)
  {
    MulSucc(n, W);
    SliceOfRight(a, b);
  }

  lemma SliceOfLeft<T>(a: seq<T>, b: seq<T>, i: int, j: int)
    requires 0 <= i <= j <= |a|
    ensures (a + b)[i..j] == a[i..j]
  {
  }

  lemma SliceOfRight<T>(a: seq<T>, b: seq<T>)
    ensures (a + b)[|a|..|a| + |b|] == b
  {
  }

  /** The image a decode produces: its size and its bytes, four per pixel, row after row. */
  datatype Picture = Picture(width: nat, height: nat, pix: seq<byte>)

  /** A `w` by `h` picture with every pixel transparent. */
  function Blank(w: nat, h: nat): Picture {
    Picture(w, h, Zeros(h * (4 * w)))
  }

  /** The supplied rows followed by transparent rows up to the image's height. */
  function Canvas(rows: seq<string>, cs: nat, w: nat, h: nat, table: map<string, Color>): (p: seq<byte>)
    requires RowsFit(rows, cs, w, h)
    ensures |p| == h * (4 * w)
  {
    assert RowsLongEnough(rows, cs, w) by {
      forall j | 0 <= j < |rows| ensures w * cs <= |rows[j]| {
        assert RowError(rows[j], cs, j, w, h).None?;
      }
    }
    assert w == 0 || |rows| <= h by {
      if w > 0 && |rows| > 0 {
        assert RowError(rows[|rows| - 1], cs, |rows| - 1, w, h).None?;
      }
    }
    MulMono(if w == 0 then 0 else |rows|, h, 4 * w);
    Painted(rows, cs, w, table) + Zeros(h * (4 * w) - |rows| * (4 * w))
  }

  /** Bytes `r*W` up to `(r+1)*W` of `pix` are there and are `bytes`: row `r` of rows `W` bytes wide. */
  predicate RowIs(pix: seq<byte>, r: nat, W: nat, bytes: seq<byte>) {
    MulSucc(r, W);
    (r + 1) * W <= |pix| && pix[r * W..(r + 1) * W] == bytes
  }

  /** Row `r` of the canvas is supplied row `r`'s pixels; every byte after the supplied rows is zero. */
  lemma CanvasLayout(rows: seq<string>, cs: nat, w: nat, h: nat, table: map<string, Color>)
    requires RowsFit(rows, cs, w, h)
    ensures forall r :: 0 <= r < |rows| ==>
              (w > 0 ==> r < h) && w * cs <= |rows[r]| &&
              RowIs(Canvas(rows, cs, w, h, table), r, 4 * w, RowBytes(rows[r], cs, w, table))
    ensures forall i :: |rows| * (4 * w) <= i < h * (4 * w) ==> Canvas(rows, cs, w, h, table)[i] == 0
  {
    var c := Canvas(rows, cs, w, h, table);
    assert RowsLongEnough(rows, cs, w) by {
      forall j | 0 <= j < |rows| ensures w * cs <= |rows[j]| {
        assert RowError(rows[j], cs, j, w, h).None?;
      }
    }
    var painted := Painted(rows, cs, w, table);
    assert c == painted + c[|painted|..];
    forall r | 0 <= r < |rows|
      ensures (w > 0 ==> r < h) && w * cs <= |rows[r]|
      ensures RowIs(c, r, 4 * w, RowBytes(rows[r], cs, w, table))
    {
      assert RowError(rows[r], cs, r, w, h).None?;
      PaintedRow(rows, cs, w, table, r);
      RowIsPrefix(painted, c[|painted|..], r, 4 * w, RowBytes(rows[r], cs, w, table));
    }
  }

  /** Supplying one more row writes its pixels at the next row offset and leaves every other byte. */
  lemma CanvasAppend(rows: seq<string>, s: string, cs: nat, w: nat, h: nat, table: map<string, Color>)
    requires RowsFit(rows + [s], cs, w, h)
    ensures RowsFit(rows, cs, w, h)
    ensures var off := |rows| * (4 * w);
            var before := Canvas(rows, cs, w, h, table);
            off + 4 * w <= |before| && w * cs <= |s| &&
            Canvas(rows + [s], cs, w, h, table) == before[..off] + RowBytes(s, cs, w, table) + before[off + 4 * w..]
  {
    var n := |rows|;
    var W := 4 * w;
    AppendFits(rows, s, cs, w, h);
    var painted := Painted(rows, cs, w, table);
    var row := RowBytes(s, cs, w, table);
    var z := Zeros(h * W - (n + 1) * W);
    CanvasSnoc(rows, s, cs, w, h, table);
    MulSucc(n, W);
    ZerosSplit(W, h * W - (n + 1) * W);
    assert Canvas(rows, cs, w, h, table) == painted + Zeros(W) + z;
    ReplaceMiddle(painted, Zeros(W), row, z);
  }

  /** With one more row, the canvas is the painted rows, the new row's bytes, then zeros. */
  lemma CanvasSnoc(rows: seq<string>, s: string, cs: nat, w: nat, h: nat, table: map<string, Color>)
    requires RowsFit(rows + [s], cs, w, h) && RowsLongEnough(rows, cs, w) && w * cs <= |s|
    requires (|rows| + 1) * (4 * w) <= h * (4 * w)
    ensures Canvas(rows + [s], cs, w, h, table) ==
              Painted(rows, cs, w, table) + RowBytes(s, cs, w, table) + Zeros(h * (4 * w) - (|rows| + 1) * (4 * w))
  {
    var rows' := rows + [s];
    assert RowsLongEnough(rows', cs, w) by {
      forall j | 0 <= j < |rows'| ensures w * cs <= |rows'[j]| {
        assert RowError(rows'[j], cs, j, w, h).None?;
      }
    }
    assert rows'[..|rows|] == rows;
  }

  /** Putting `m'` in place of `m`, of the same length, keeps what is around it. */
  lemma ReplaceMiddle(p: seq<byte>, m: seq<byte>, m': seq<byte>, z: seq<byte>)
    requires |m| == |m'|
    ensures (p + m + z)[..|p|] + m' + (p + m + z)[|p| + |m|..] == p + m' + z
  {
    assert (p + m + z)[..|p|] == p;
    assert (p + m + z)[|p| + |m|..] == z;
  }

  /** The rows before a fitting row fit too, and the new row is long enough and within the image. */
  lemma AppendFits(rows: seq<string>, s: string, cs: nat, w: nat, h: nat)
    requires RowsFit(rows + [s], cs, w, h)
    ensures RowsFit(rows, cs, w, h)
    ensures RowError(s, cs, |rows|, w, h).None?
    ensures w * cs <= |s| && (|rows| + 1) * (4 * w) <= h * (4 * w)
  {
    var rows' := rows + [s];
    var n := |rows|;
    assert forall j :: 0 <= j < n ==> rows'[j] == rows[j];
    assert rows'[n] == s;
    assert RowError(rows'[n], cs, n, w, h).None?;
    if w > 0 {
      MulMono(n + 1, h, 4 * w);
    }
  }

  lemma ZerosSplit(a: nat, b: nat)
    ensures Zeros(a + b) == Zeros(a) + Zeros(b)
  {
    assert forall i :: 0 <= i < a + b ==> (Zeros(a) + Zeros(b))[i] == 0;
  }

  /**
   * The result of decoding the kept lines `k`: no image when there are no
   * lines; else the header's error, or the decode of the lines after it.
   */
  function DecodeKept(k: seq<string>, names: map<string, Color>): Result<Option<Picture>, Error>
  {
    if k == [] then Ok(None)
    else
      match ParseDimensions(k[0])
      case Err(e) => Err(e)
      case Ok(d) => DecodeBody(k[1..], d, names)
  }

  /**
   * The kept lines after the header `d`: the first `ncolors` build the colour
   * table, the rest are pixel rows drawn with it; the first failing line's
   * error.
   */
  function DecodeBody(body: seq<string>, d: Dimensions, names: map<string, Color>): Result<Option<Picture>, Error>
    requires NonNegative(d)
  {
    var n := ColorLineCount(body, d);
    match BuildTable(body[..n], d.cpp, names)
    case Err(e) => Err(e)
    case Ok(table) => DecodeRows(body[n..], d.cpp, d.width, d.height, table)
  }

  /** The pixel rows: the first failing row's error, or the canvas of the header's size. */
  function DecodeRows(rows: seq<string>, cs: nat, w: nat, h: nat, table: map<string, Color>): Result<Option<Picture>, Error>
  {
    match CheckRows(rows, cs, w, h)
    case Some(e) => Err(e)
    case None =>
      CheckRowsFails(rows, cs, w, h);
      Ok(Some(Picture(w, h, Canvas(rows, cs, w, h, table))))
  }

  /** What decoding the lines of an XPM file gives. */
  function Decode(lines: seq<string>, names: map<string, Color>): (r: Result<Option<Picture>, Error>)
    ensures Kept(lines) == [] ==> r == Ok(None)
    ensures Kept(lines) != [] && ParseDimensions(Kept(lines)[0]).Err? ==> r == Err(ParseDimensions(Kept(lines)[0]).error)
    ensures r.Ok? && r.value.Some? ==>
              Kept(lines) != [] && ParseDimensions(Kept(lines)[0]).Ok? &&
              var d, p := ParseDimensions(Kept(lines)[0]).value, r.value.value;
              p.width == d.width && p.height == d.height && |p.pix| == d.height * (4 * d.width)
  {
    DecodeKept(Kept(lines), names)
  }

  /** A header that parses leads to the decode of the lines after it. */
  lemma DecodeKeptBody(hd: string, body: seq<string>, names: map<string, Color>, d: Dimensions)
    requires ParseDimensions(hd) == Ok(d)
    ensures NonNegative(d)
    ensures DecodeKept([hd] + body, names) == DecodeBody(body, d, names)
  {
    assert ([hd] + body)[0] == hd && ([hd] + body)[1..] == body;
  }

  /** A decoded image is the canvas of the header's size painted with the pixel rows. */
  lemma DecodedCanvas(body: seq<string>, names: map<string, Color>, d: Dimensions, table: map<string, Color>, p: Picture)
    requires NonNegative(d)
    requires BuildTable(body[..ColorLineCount(body, d)], d.cpp, names) == Ok(table)
    requires DecodeBody(body, d, names) == Ok(Some(p))
    ensures RowsFit(body[ColorLineCount(body, d)..], d.cpp, d.width, d.height)
    ensures p == Picture(d.width, d.height, Canvas(body[ColorLineCount(body, d)..], d.cpp, d.width, d.height, table))
  {
    CheckRowsFails(body[ColorLineCount(body, d)..], d.cpp, d.width, d.height);
  }

  /**
   * A decoded image is `width` by `height` as the header `d` says, row `r`
   * holds the pixels of pixel row `r`, and rows never supplied stay
   * transparent.
   */
  lemma DecodedImage(body: seq<string>, names: map<string, Color>, d: Dimensions, table: map<string, Color>, p: Picture)
    requires NonNegative(d)
    requires BuildTable(body[..ColorLineCount(body, d)], d.cpp, names) == Ok(table)
    requires DecodeBody(body, d, names) == Ok(Some(p))
    ensures p.width == d.width && p.height == d.height
    ensures ImageLayout(p, body[ColorLineCount(body, d)..], d.cpp, table)
  {
    var rows := body[ColorLineCount(body, d)..];
    DecodedCanvas(body, names, d, table, p);
    CanvasLayout(rows, d.cpp, d.width, d.height, table);
  }

  /**
   * `p` holds `rows` as its first pixel rows, drawn with `table`, and is
   * transparent after them.
   */
  predicate ImageLayout(p: Picture, rows: seq<string>, cs: nat, table: map<string, Color>) {
    |p.pix| == p.height * (4 * p.width)
    && (forall r :: 0 <= r < |rows| ==>
          (p.width > 0 ==> r < p.height) && cs * p.width <= |rows[r]| &&
          RowIs(p.pix, r, 4 * p.width, RowBytes(rows[r], cs, p.width, table)))
    && (forall i :: |rows| * (4 * p.width) <= i < |p.pix| ==> p.pix[i] == 0)
  }

  /** No quoted line at all: no image and no error (xpm/xpm.go:63 returns the nil image). */
  lemma NoQuotedLines(lines: seq<string>, names: map<string, Color>)
    requires forall j :: 0 <= j < |lines| ==> !IsQuoted(lines[j])
    ensures Decode(lines, names) == Ok(None)
  {
    NoneKept(lines);
  }

  lemma {:induction false} NoneKept(lines: seq<string>)
    requires forall j :: 0 <= j < |lines| ==> !IsQuoted(lines[j])
    ensures Kept(lines) == []
  {
    if lines != [] {
      NoneKept(lines[..|lines| - 1]);
    }
  }

  /** Once the lines read so far give an error, no further line changes it: every error aborts the decode. */
  lemma ErrorIsFinal(k: seq<string>, more: seq<string>, names: map<string, Color>)
    requires DecodeKept(k, names).Err?
    ensures DecodeKept(k + more, names) == DecodeKept(k, names)
  {
    assert k == [k[0]] + k[1..];
    assert k + more == [k[0]] + (k[1..] + more);
    if ParseDimensions(k[0]).Ok? {
      var d := ParseDimensions(k[0]).value;
      DecodeKeptBody(k[0], k[1..], names, d);
      DecodeKeptBody(k[0], k[1..] + more, names, d);
      BodyErrorIsFinal(k[1..], more, d, names);
    }
  }

  lemma BodyErrorIsFinal(body: seq<string>, more: seq<string>, d: Dimensions, names: map<string, Color>)
    requires NonNegative(d)
    requires DecodeBody(body, d, names).Err?
    ensures DecodeBody(body + more, d, names) == DecodeBody(body, d, names)
  {
    var n := ColorLineCount(body, d);
    if BuildTable(body[..n], d.cpp, names).Err? {
      TableErrorIsFinal(body, more, d, names);
    } else {
      RowErrorIsFinal(body, more, d, names);
    }
  }

  lemma TableErrorIsFinal(body: seq<string>, more: seq<string>, d: Dimensions, names: map<string, Color>)
    requires NonNegative(d)
    requires BuildTable(body[..ColorLineCount(body, d)], d.cpp, names).Err?
    ensures DecodeBody(body + more, d, names) == DecodeBody(body, d, names)
  {
    var bm := body + more;
    var n := ColorLineCount(body, d);
    var n' := ColorLineCount(bm, d);
    var cl := body[..n];
    assert bm[..n'] == cl + bm[n..n'];
    BuildTableKeepsError(cl, bm[n..n'], d.cpp, names);
  }

  lemma RowErrorIsFinal(body: seq<string>, more: seq<string>, d: Dimensions, names: map<string, Color>)
    requires NonNegative(d)
    requires BuildTable(body[..ColorLineCount(body, d)], d.cpp, names).Ok?
    requires DecodeBody(body, d, names).Err?
    ensures DecodeBody(body + more, d, names) == DecodeBody(body, d, names)
  {
    var bm := body + more;
    var n := ColorLineCount(body, d);
    var cl := body[..n];
    var rows := body[n..];
    assert CheckRows(rows, d.cpp, d.width, d.height).Some?;
    assert ColorLineCount(bm, d) == n;
    assert bm[..n] == cl;
    assert bm[n..] == rows + more;
    CheckRowsKeepsError(rows, more, d.cpp, d.width, d.height);
  }

  /** With no pixel rows the image is all transparent, whatever the colour table. */
  lemma DecodeNoRows(cs: nat, w: nat, h: nat, table: map<string, Color>)
    ensures DecodeRows([], cs, w, h, table) == Ok(Some(Blank(w, h)))
  {
    assert RowsFit([], cs, w, h) && CheckRows([], cs, w, h).None?;
    assert Painted([], cs, w, table) == [];
    assert Canvas([], cs, w, h, table) == Zeros(h * (4 * w));
  }

  /** Nothing after the header: an all-transparent image of the header's size. */
  lemma DecodeEmptyBody(d: Dimensions, names: map<string, Color>)
    requires NonNegative(d)
    ensures DecodeBody([], d, names) == Ok(Some(Blank(d.width, d.height)))
  {
    assert ColorLineCount([], d) == 0;
    var none: seq<string> := [];
    assert none[..0] == [] && none[0..] == [];
    DecodeNoRows(d.cpp, d.width, d.height, map[]);
  }

  /** The state after the header line: an all-transparent image of the header's size. */
  lemma DecodeHeader(s: string, names: map<string, Color>)
    ensures DecodeKept([s], names) == match ParseDimensions(s)
              case Err(e) => Err(e)
              case Ok(d) => Ok(Some(Blank(d.width, d.height)))
  {
    if ParseDimensions(s).Ok? {
      var d := ParseDimensions(s).value;
      assert [s] == [s] + [];
      DecodeKeptBody(s, [], names, d);
      DecodeEmptyBody(d, names);
    }
  }

  /** A colour line changes the table and nothing else, or fails the decode with its error. */
  lemma DecodeColorLine(body: seq<string>, s: string, names: map<string, Color>, d: Dimensions,
                        table: map<string, Color>, p: Picture)
    requires NonNegative(d)
    requires |body| < d.colors
    requires BuildTable(body, d.cpp, names) == Ok(table)
    requires DecodeBody(body, d, names) == Ok(Some(p))
    ensures BuildTable(body + [s], d.cpp, names) == match ParseColor(s, d.cpp, names)
              case Err(e) => Err(e)
              case Ok((id, c)) => Ok(if id != "" then table[id := c] else table)
    ensures DecodeBody(body + [s], d, names) == match ParseColor(s, d.cpp, names)
              case Err(e) => Err(e)
              case Ok(_) => Ok(Some(p))
  {
    var b' := body + [s];
    OutcomesSnoc(body, s, d.cpp, names);
    var rs := Outcomes(body, d.cpp, names);
    assert (rs + [ParseColor(s, d.cpp, names)])[..|rs|] == rs;
    assert ColorLineCount(body, d) == |body| && ColorLineCount(b', d) == |b'|;
    assert body[..|body|] == body && b'[..|b'|] == b';
    assert body[|body|..] == [] && b'[|b'|..] == [];
    DecodeNoRows(d.cpp, d.width, d.height, table);
    match ParseColor(s, d.cpp, names)
    case Err(_) =>
    case Ok((id, c)) =>
      DecodeNoRows(d.cpp, d.width, d.height, if id != "" then table[id := c] else table);
  }

  /** One more pixel row is written into its image row, or fails with its error. */
  lemma DecodeRowsAppend(rows: seq<string>, s: string, cs: nat, w: nat, h: nat, table: map<string, Color>, p: Picture)
    requires DecodeRows(rows, cs, w, h, table) == Ok(Some(p))
    ensures var e := RowError(s, cs, |rows|, w, h);
            e.Some? ==> DecodeRows(rows + [s], cs, w, h, table) == Err(e.value)
    ensures var off := |rows| * (4 * w);
            RowError(s, cs, |rows|, w, h).None? ==>
              off + 4 * w <= |p.pix| && cs * w <= |s| &&
              DecodeRows(rows + [s], cs, w, h, table) ==
                Ok(Some(Picture(w, h, p.pix[..off] + RowBytes(s, cs, w, table) + p.pix[off + 4 * w..])))
  {
    assert CheckRows(rows, cs, w, h).None?;
    assert CheckRows(rows + [s], cs, w, h) == RowError(s, cs, |rows|, w, h) by {
      assert (rows + [s])[..|rows|] == rows;
    }
    if RowError(s, cs, |rows|, w, h).None? {
      CheckRowsFails(rows + [s], cs, w, h);
      CanvasAppend(rows, s, cs, w, h, table);
    }
  }

  /** Before and after a pixel row, decoding the body is decoding its pixel rows. */
  lemma BodyRowsAppend(body: seq<string>, s: string, names: map<string, Color>, d: Dimensions, table: map<string, Color>)
    requires NonNegative(d)
    requires d.colors <= |body|
    requires BuildTable(body[..d.colors], d.cpp, names) == Ok(table)
    ensures DecodeBody(body, d, names) == DecodeRows(body[d.colors..], d.cpp, d.width, d.height, table)
    ensures DecodeBody(body + [s], d, names) == DecodeRows(body[d.colors..] + [s], d.cpp, d.width, d.height, table)
  {
    var b' := body + [s];
    var n := d.colors;
    assert b'[..n] == body[..n];
    assert b'[n..] == body[n..] + [s];
    DecodeBodyRows(body, names, d, table);
    DecodeBodyRows(b', names, d, table);
  }

  /** Once the colour lines are read, decoding is decoding the pixel rows. */
  lemma DecodeBodyRows(body: seq<string>, names: map<string, Color>, d: Dimensions, table: map<string, Color>)
    requires NonNegative(d)
    requires d.colors <= |body|
    requires BuildTable(body[..d.colors], d.cpp, names) == Ok(table)
    ensures DecodeBody(body, d, names) == DecodeRows(body[d.colors..], d.cpp, d.width, d.height, table)
  {
    assert ColorLineCount(body, d) == d.colors;
  }

  /**
   * `parseXPM` over the lines of the input: the scanning loop of
   * xpm/xpm.go:29-63, which skips every line that does not start with a
   * quote; the first error ends the decode. It computes `Decode`.
   */
  method ParseXPM(lines: seq<string>, names: map<string, Color>) returns (img: Nrgba?, err: Option<Error>)
    ensures match Decode(lines, names)
              case Err(e) => err == Some(e) && img == null
              case Ok(None) => err == None && img == null
              case Ok(Some(p)) =>
                err == None && img != null && fresh(img.pix) && img.Valid()
                && img.width == p.width && img.height == p.height && img.pix[..] == p.pix
  {
    var colCount, charSize := 0, 0;
    var colors: map<string, Color> := map[];
    img := null;
    var rowNum := 0;
    ghost var hd: string := "";
    ghost var body: seq<string> := [];
    for i := 0 to |lines|
      invariant rowNum == |Kept(lines[..i])|
      invariant rowNum == 0 ==> img == null
      invariant rowNum > 0 ==> img != null && fresh(img.pix)
      invariant rowNum > 0 ==>
                  Kept(lines[..i]) == [hd] + body &&
                  Reading(hd, body, names, img, colCount, charSize, colors)
    {
      KeptStep(lines, i);
      var row := lines[i];
      if row != "" && row[0] == '"' {
        ghost var k := if rowNum == 0 then [] else [hd] + body;
        var e;
        img, colCount, charSize, colors, hd, body, e :=
          ReadRow(k, hd, body, names, StripQuotes(row), rowNum, colCount, charSize, colors, img);
        if e.Some? {
          ErrorEnd(lines, i, names);
          return null, e;
        }
        rowNum := rowNum + 1;
      }
    }
    assert lines[..|lines|] == lines;
    if rowNum > 0 {
      DecodeKeptBody(hd, body, names, Dimensions(img.width, img.height, colCount, charSize));
    }
    return img, None;
  }

  /**
   * The decoder after the header line `hd` and the kept lines `body` after
   * it: `img` has the header's size, and `colors` and the image's bytes are
   * what the decode of those lines gives.
   */
  ghost predicate Reading(hd: string, body: seq<string>, names: map<string, Color>, img: Nrgba,
                          colCount: int, charSize: int, colors: map<string, Color>)
    reads img, img.pix
  {
    img.Valid() &&
    ParseDimensions(hd) == Ok(Dimensions(img.width, img.height, colCount, charSize)) &&
    Phase(body, names, Dimensions(img.width, img.height, colCount, charSize), colors, img.pix[..])
  }

  /**
   * One quoted line after its quotes are stripped (xpm/xpm.go:37-60), the
   * `rowNum`-th: row 0 is the header and allocates the image, the next
   * `ncolors` rows are colour lines and the rest are pixel rows. `k` are the
   * kept lines before it; the new state is the decode of `k + [row]`.
   */
  method ReadRow(ghost k: seq<string>, ghost hd: string, ghost body: seq<string>, names: map<string, Color>,
                 row: string, rowNum: nat, colCount: int, charSize: int, colors: map<string, Color>, img: Nrgba?)
    returns (img': Nrgba?, colCount': int, charSize': int, colors': map<string, Color>,
             ghost hd': string, ghost body': seq<string>, err: Option<Error>)
    requires rowNum == 0 ==> img == null && k == []
    requires rowNum > 0 ==>
               img != null && k == [hd] + body && rowNum == |k| && Reading(hd, body, names, img, colCount, charSize, colors)
    modifies if img == null then {} else {img.pix}
    ensures err.Some? ==> DecodeKept(k + [row], names) == Err(err.value)
    ensures err.None? ==>
              img' != null && (img == null ==> fresh(img'.pix)) && (img != null ==> img' == img)
              && k + [row] == [hd'] + body' && Reading(hd', body', names, img', colCount', charSize', colors')
  {
    if rowNum == 0 {
      assert k + [row] == [row] + [];
      img', colCount', charSize', err := ReadHeader(row, names);
      colors', hd', body' := map[], row, [];
    } else {
      assert k + [row] == [hd] + (body + [row]);
      img', colCount', charSize', hd', body' := img, colCount, charSize, hd, body + [row];
      DecodeKeptBody(hd, body + [row], names, Dimensions(img.width, img.height, colCount, charSize));
      if rowNum <= colCount {
        colors', err := ReadColor(body, names, row, colCount, charSize, colors, img);
      } else {
        colors' := colors;
        err := ReadPixels(body, names, row, rowNum, colCount, charSize, colors, img);
      }
    }
  }

  /** Row 0, the header (xpm/xpm.go:38-45): its sizes, and a new all-transparent image. */
  method ReadHeader(row: string, names: map<string, Color>)
    returns (img: Nrgba?, colCount: int, charSize: int, err: Option<Error>)
    ensures err.Some? ==> DecodeKept([row] + [], names) == Err(err.value)
    ensures err.None? ==> img != null && fresh(img.pix) && Reading(row, [], names, img, colCount, charSize, map[])
  {
    var dims := ParseDimensions(row);
    if dims.Err? {
      assert [row] + [] == [row];
      return null, 0, 0, Some(dims.error);
    }
    img := new Nrgba(dims.value.width, dims.value.height);
    colCount, charSize, err := dims.value.colors, dims.value.cpp, None;
    HeaderPhase(names, img.width, img.height, colCount, charSize, img.pix[..]);
  }

  /** A colour line (xpm/xpm.go:46-54): its definition enters the table unless its key is empty. */
  method ReadColor(ghost body: seq<string>, names: map<string, Color>, row: string,
                   colCount: int, charSize: int, colors: map<string, Color>, img: Nrgba)
    returns (colors': map<string, Color>, err: Option<Error>)
    requires 1 + |body| <= colCount
    requires Phase(body, names, Dimensions(img.width, img.height, colCount, charSize), colors, img.pix[..])
    ensures var d := Dimensions(img.width, img.height, colCount, charSize);
            err.Some? ==> DecodeBody(body + [row], d, names) == Err(err.value)
    ensures err.None? ==>
              Phase(body + [row], names, Dimensions(img.width, img.height, colCount, charSize), colors', img.pix[..])
  {
    var entry := ParseColor(row, charSize, names);
    ColorPhase(body, row, names, Dimensions(img.width, img.height, colCount, charSize), colors, img.pix[..]);
    if entry.Err? {
      return colors, Some(entry.error);
    }
    var (id, c) := entry.value;
    colors', err := colors, None;
    if id != "" {
      colors' := colors[id := c];
    }
  }

  /** Pixel row `rowNum` (xpm/xpm.go:55-60): written into image row `rowNum - ncolors - 1`. */
  method ReadPixels(ghost body: seq<string>, names: map<string, Color>, row: string,
                    rowNum: nat, colCount: int, charSize: int, colors: map<string, Color>, img: Nrgba)
    returns (err: Option<Error>)
    requires 0 <= colCount <= |body| && rowNum == 1 + |body|
    requires img.Valid()
    requires Phase(body, names, Dimensions(img.width, img.height, colCount, charSize), colors, img.pix[..])
    modifies img.pix
    ensures var d := Dimensions(img.width, img.height, colCount, charSize);
            err.Some? ==> DecodeBody(body + [row], d, names) == Err(err.value)
    ensures err.None? ==>
              Phase(body + [row], names, Dimensions(img.width, img.height, colCount, charSize), colors, img.pix[..])
  {
    ghost var d := Dimensions(img.width, img.height, colCount, charSize);
    ghost var before := img.pix[..];
    var pixRow := rowNum - colCount - 1;
    err := ParsePixels(row, charSize, pixRow, colors, img);
    if err.Some? {
      RowRejected(body, row, names, d, colors, before);
    } else {
      RowWritten(body, row, names, d, colors, before, pixRow * img.stride, img.pix[..]);
    }
  }

  /**
   * The decoder's state after the header `d` and the kept lines `body` after
   * it: `colors` is the table of the colour lines read so far, and the decode
   * so far is the image with bytes `pix`.
   */
  ghost predicate Phase(body: seq<string>, names: map<string, Color>, d: Dimensions, colors: map<string, Color>,
                        pix: seq<byte>)
  {
    NonNegative(d) &&
    BuildTable(body[..ColorLineCount(body, d)], d.cpp, names) == Ok(colors) &&
    DecodeBody(body, d, names) == Ok(Some(Picture(d.width, d.height, pix)))
  }

  /** The kept lines grow by the stripped line when the next line is quoted, and not otherwise. */
  lemma KeptStep(lines: seq<string>, i: nat)
    requires i < |lines|
    ensures Kept(lines[..i + 1]) ==
              Kept(lines[..i]) + (if IsQuoted(lines[i]) then [StripQuotes(lines[i])] else [])
  {
    assert lines[..i + 1][..i] == lines[..i];
  }

  /** An error after line `i` is the error of the whole decode. */
  lemma ErrorEnd(lines: seq<string>, i: nat, names: map<string, Color>)
    requires i < |lines|
    requires DecodeKept(Kept(lines[..i + 1]), names).Err?
    ensures Decode(lines, names) == DecodeKept(Kept(lines[..i + 1]), names)
  {
    KeptSplit(lines, i + 1);
    ErrorIsFinal(Kept(lines[..i + 1]), Kept(lines[i + 1..]), names);
    DecodeOfKept(lines, names);
  }

  lemma KeptSplit(lines: seq<string>, n: nat)
    requires n <= |lines|
    ensures Kept(lines) == Kept(lines[..n]) + Kept(lines[n..])
  {
    assert lines[..n] + lines[n..] == lines;
    KeptAppend(lines[..n], lines[n..]);
  }

  lemma DecodeOfKept(lines: seq<string>, names: map<string, Color>)
    ensures Decode(lines, names) == DecodeKept(Kept(lines), names)
  {
  }

  /** The header line starts the decode with the freshly zeroed image and an empty table. */
  lemma HeaderPhase(names: map<string, Color>, w: nat, h: nat, ncolors: int, cpp: int, pix: seq<byte>)
    requires 0 <= ncolors && 0 <= cpp
    requires pix == Zeros(4 * w * h)
    ensures Phase([], names, Dimensions(w, h, ncolors, cpp), map[], pix)
  {
    var d := Dimensions(w, h, ncolors, cpp);
    MulComm4(w, h);
    DecodeEmptyBody(d, names);
    var none: seq<string> := [];
    assert ColorLineCount(none, d) == 0 && none[..0] == [];
  }

  lemma MulComm4(w: nat, h: nat)
    ensures 4 * w * h == h * (4 * w)
  {
  }

  /** A colour line fails the decode with its error, or enters its definition in the table. */
  lemma ColorPhase(body: seq<string>, s: string, names: map<string, Color>, d: Dimensions,
                   colors: map<string, Color>, pix: seq<byte>)
    requires Phase(body, names, d, colors, pix)
    requires |body| < d.colors
    ensures ParseColor(s, d.cpp, names).Err? ==> DecodeBody(body + [s], d, names) == Err(ParseColor(s, d.cpp, names).error)
    ensures ParseColor(s, d.cpp, names).Ok? ==>
              var (id, c) := ParseColor(s, d.cpp, names).value;
              Phase(body + [s], names, d, if id != "" then colors[id := c] else colors, pix)
  {
    assert ColorLineCount(body, d) == |body| && body[..|body|] == body;
    DecodeColorLine(body, s, names, d, colors, Picture(d.width, d.height, pix));
    assert ColorLineCount(body + [s], d) == |body + [s]| && (body + [s])[..|body + [s]|] == body + [s];
  }

  /** A pixel row that does not fit fails the decode with its error. */
  lemma RowRejected(body: seq<string>, s: string, names: map<string, Color>, d: Dimensions,
                    colors: map<string, Color>, pix: seq<byte>)
    requires Phase(body, names, d, colors, pix)
    requires d.colors <= |body|
    requires RowError(s, d.cpp, |body| - d.colors, d.width, d.height).Some?
    ensures DecodeBody(body + [s], d, names) == Err(RowError(s, d.cpp, |body| - d.colors, d.width, d.height).value)
  {
    assert ColorLineCount(body, d) == d.colors;
    var rows, p := body[d.colors..], Picture(d.width, d.height, pix);
    BodyRowsAppend(body, s, names, d, colors);
    assert DecodeRows(rows, d.cpp, d.width, d.height, colors) == Ok(Some(p));
    DecodeRowsAppend(rows, s, d.cpp, d.width, d.height, colors, p);
  }

  /** A pixel row that fits is written into its image row, and the table stays. */
  lemma RowWritten(body: seq<string>, s: string, names: map<string, Color>, d: Dimensions,
                   colors: map<string, Color>, pix: seq<byte>, off: nat, pix': seq<byte>)
    requires Phase(body, names, d, colors, pix)
    requires d.colors <= |body|
    requires RowError(s, d.cpp, |body| - d.colors, d.width, d.height).None?
    requires off == (|body| - d.colors) * (4 * d.width) && off + 4 * d.width <= |pix|
    requires pix' == pix[..off] + RowBytes(s, d.cpp, d.width, colors) + pix[off + 4 * d.width..]
    ensures Phase(body + [s], names, d, colors, pix')
  {
    assert ColorLineCount(body, d) == d.colors;
    RowDecoded(body, s, names, d, colors, pix, off, pix');
    TableAfterRow(body, s, names, d, colors);
  }

  lemma RowDecoded(body: seq<string>, s: string, names: map<string, Color>, d: Dimensions,
                   colors: map<string, Color>, pix: seq<byte>, off: nat, pix': seq<byte>)
    requires NonNegative(d) && d.colors <= |body|
    requires BuildTable(body[..d.colors], d.cpp, names) == Ok(colors)
    requires DecodeBody(body, d, names) == Ok(Some(Picture(d.width, d.height, pix)))
    requires RowError(s, d.cpp, |body| - d.colors, d.width, d.height).None?
    requires off == (|body| - d.colors) * (4 * d.width) && off + 4 * d.width <= |pix|
    requires pix' == pix[..off] + RowBytes(s, d.cpp, d.width, colors) + pix[off + 4 * d.width..]
    ensures DecodeBody(body + [s], d, names) == Ok(Some(Picture(d.width, d.height, pix')))
  {
    var rows, p := body[d.colors..], Picture(d.width, d.height, pix);
    BodyRowsAppend(body, s, names, d, colors);
    assert DecodeRows(rows, d.cpp, d.width, d.height, colors) == Ok(Some(p));
    DecodeRowsAppend(rows, s, d.cpp, d.width, d.height, colors, p);
  }

  /** A pixel row leaves the colour table as it is. */
  lemma TableAfterRow(body: seq<string>, s: string, names: map<string, Color>, d: Dimensions,
                      colors: map<string, Color>)
    requires NonNegative(d)
    requires d.colors <= |body|
    requires BuildTable(body[..ColorLineCount(body, d)], d.cpp, names) == Ok(colors)
    ensures BuildTable((body + [s])[..ColorLineCount(body + [s], d)], d.cpp, names) == Ok(colors)
  {
    assert ColorLineCount(body, d) == d.colors;
    assert ColorLineCount(body + [s], d) == d.colors && (body + [s])[..d.colors] == body[..d.colors];
  }
}
