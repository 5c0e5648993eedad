/**
 * `parseColor` and `nextKeyIndex` (xpm/xpm.go:66-110): one colour line,
 * "<key> <visual> <value> [<visual> <value> ...]", where the key is the
 * first `cpp` characters and each value runs up to the next visual key.
 */
module XpmPalette {
  import opened Wrappers
  import opened GoStrings
  import opened XpmTypes
  import opened XpmColor

  /** The visual-class keys: colour, mono, symbolic, 4-level grey and grey. */
  predicate IsVisual(t: string) {
    t == "c" || t == "m" || t == "s" || t == "g4" || t == "g"
  }

  /** `nextKeyIndex`: the position of the first visual key in `parts`, or `|parts|` when there is none. */
  function NextKeyIndex(parts: seq<string>): (i: nat)
    ensures i <= |parts|
    ensures forall j :: 0 <= j < i ==> !IsVisual(parts[j])
    ensures i < |parts| ==> IsVisual(parts[i])
  {
    if parts == [] || IsVisual(parts[0]) then 0 else 1 + NextKeyIndex(parts[1..])
  }

  /**
   * The loop of xpm/xpm.go:73-97 over the tokens after the key: take a
   * visual key and the value words up to the next visual key; resolve the
   * value of the first `c` entry, skip m, s, g4 and g entries, and fail on
   * any other key, on an empty value, or when fewer than two tokens remain.
   */
  function ParseEntries(parts: seq<string>, names: map<string, Color>): (r: Result<Color, Error>)
    ensures |parts| < 2 ==> r == Err(MissingColorSpec)
    ensures |parts| >= 2 && IsVisual(parts[1]) ==> r == Err(MissingColorSpec)
    ensures r.Err? && r.error.UnknownVisual? ==> !IsVisual(r.error.key)
    ensures r.Err? && r.error.UnknownVisual? ==> |parts| >= 2 && r.error.key == parts[0]
    ensures |parts| >= 2 && !IsVisual(parts[0]) && !IsVisual(parts[1]) && parts[1] != "" ==>
              r == Err(UnknownVisual(parts[0]))
    decreases |parts|
  {
    if |parts| < 2 then Err(MissingColorSpec)
    else
      var key, rest := parts[0], parts[1..];
      var n := NextKeyIndex(rest);
      var value := Join(rest[..n], " ");
      JoinEmpty(rest[..n], " ");
      if value == "" then Err(MissingColorSpec)
      else if key == "c" then
        match StringToColor(value, names)
        case Ok(c) => Ok(c)
        case Err(e) =>
          assert !e.UnknownVisual?;
          Err(e)
      else if IsVisual(key) then ParseEntries(rest[n..], names)
      else Err(UnknownVisual(key))
  }

  /**
   * `parseColor`: the key of a colour line and the colour of its `c` entry.
   * The key is the first `cs` characters, whatever they are.
   */
  function ParseColor(data: string, cs: nat, names: map<string, Color>): (r: Result<(string, Color), Error>)
    ensures |data| < cs ==> r == Err(MissingColorSpec)
    ensures r.Ok? ==> cs <= |data| && r.value.0 == data[..cs]
    ensures r.Ok? ==> ParseEntries(Fields(data[cs..]), names) == Ok(r.value.1)
    ensures cs <= |data| ==> (r.Ok? <==> ParseEntries(Fields(data[cs..]), names).Ok?)
    ensures cs <= |data| && r.Err? ==> r.error == ParseEntries(Fields(data[cs..]), names).error
  {
    if |data| < cs then Err(MissingColorSpec)
    else
      match ParseEntries(Fields(data[cs..]), names)
      case Ok(c) => Ok((data[..cs], c))
      case Err(e) => Err(e)
  }

  /** One entry of a colour line: a visual key and the words of its value. */
  datatype Entry = Entry(key: string, words: seq<string>)

  /** An entry as a writer of XPM files produces it: a known visual key and a non-empty value of non-key words. */
  predicate WellFormed(e: Entry) {
    IsVisual(e.key) && e.words != [] &&
    forall j :: 0 <= j < |e.words| ==> IsWord(e.words[j]) && !IsVisual(e.words[j])
  }

  /** The tokens of a sequence of entries, in order. */
  function Render(es: seq<Entry>): seq<string>
  {
    if es == [] then [] else [es[0].key] + es[0].words + Render(es[1..])
  }

  /** The line text of a key followed by entries, separated by single spaces. */
  function ColorLineText(key: string, es: seq<Entry>): string {
    key + " " + Join(Render(es), " ")
  }

  function ColorOf(e: Entry, names: map<string, Color>): Result<Color, Error>
    requires WellFormed(e)
  {
    StringToColor(Join(e.words, " "), names)
  }

  /** The first visual key of a sequence is where the quantifiers say it is. */
  lemma {:induction false} NextKeyIndexAt(parts: seq<string>, i: nat)
    requires i <= |parts|
    requires forall j :: 0 <= j < i ==> !IsVisual(parts[j])
    requires i < |parts| ==> IsVisual(parts[i])
    ensures NextKeyIndex(parts) == i
  {
    if i > 0 {
      NextKeyIndexAt(parts[1..], i - 1);
    }
  }

  /**
   * The colour is the value of the first `c` entry: well-formed m, s, g4
   * and g entries before it are skipped, and whatever follows its value
   * from the next visual key on is never read.
   */
  lemma FirstColorEntryWins(es: seq<Entry>, k: nat, tail: seq<string>, names: map<string, Color>)
    requires k < |es| && es[k].key == "c"
    requires forall j :: 0 <= j <= k ==> WellFormed(es[j])
    requires forall j :: 0 <= j < k ==> es[j].key != "c"
    requires tail != [] ==> IsVisual(tail[0])
    ensures ParseEntries(Render(es[..k + 1]) + tail, names) == ColorOf(es[k], names)
  {
    var pre, e := es[..k], es[k];
    var last := [e.key] + (e.words + tail);
    assert forall j :: 0 <= j < |pre| ==> pre[j] == es[j];
    LastEntryTokens(es, k, tail);
    ColorEntryDecides(e, tail, names);
    SkippedEntries(pre, last, names);
  }

  /** The tokens up to and including entry `k`, then a tail, are those before entry `k` followed by entry `k`'s. */
  lemma LastEntryTokens(es: seq<Entry>, k: nat, tail: seq<string>)
    requires k < |es|
    ensures Render(es[..k + 1]) + tail == Render(es[..k]) + ([es[k].key] + (es[k].words + tail))
  {
    var pre, e := es[..k], es[k];
    assert es[..k + 1] == pre + [e];
    RenderAppend(pre, [e]);
    RenderCons([e], tail);
    assert [e][1..] == [];
  }

  /** A well-formed `c` entry gives the colour of its value, whatever follows it from the next visual key on. */
  lemma ColorEntryDecides(e: Entry, tail: seq<string>, names: map<string, Color>)
    requires WellFormed(e) && e.key == "c"
    requires tail != [] ==> IsVisual(tail[0])
    ensures ParseEntries([e.key] + (e.words + tail), names) == ColorOf(e, names)
  {
    var rest := e.words + tail;
    NextKeyIndexAt(rest, |e.words|);
    assert rest[..|e.words|] == e.words;
    JoinEmpty(e.words, " ");
    assert ([e.key] + rest)[1..] == rest;
  }

  /** The tokens of two runs of entries are the tokens of the first followed by those of the second. */
  lemma {:induction false} RenderAppend(a: seq<Entry>, b: seq<Entry>)
    ensures Render(a + b) == Render(a) + Render(b)
  {
    if a == [] {
      assert a + b == b;
    } else {
      assert (a + b)[0] == a[0] && (a + b)[1..] == a[1..] + b;
      RenderAppend(a[1..], b);
    }
  }

  /**
   * Well-formed entries other than `c` are skipped with their values: what
   * follows them decides, provided it starts with a visual key or is empty.
   */
  lemma {:induction false} SkippedEntries(es: seq<Entry>, tail: seq<string>, names: map<string, Color>)
    requires forall j :: 0 <= j < |es| ==> WellFormed(es[j]) && es[j].key != "c"
    requires tail != [] ==> IsVisual(tail[0])
    ensures ParseEntries(Render(es) + tail, names) == ParseEntries(tail, names)
  {
    if es == [] {
      assert Render(es) + tail == tail;
    } else {
      var e, rest := es[0], es[1..];
      SkippedRest(es);
      RenderStartsWithKey(rest, tail);
      var more := Render(rest) + tail;
      RenderCons(es, tail);
      SkipOne(e, more, names);
      SkippedEntries(rest, tail, names);
    }
  }

  lemma RenderCons(es: seq<Entry>, tail: seq<string>)
    requires es != []
    ensures Render(es) + tail == [es[0].key] + (es[0].words + (Render(es[1..]) + tail))
  {
  }

  lemma SkippedRest(es: seq<Entry>)
    requires es != []
    requires forall j :: 0 <= j < |es| ==> WellFormed(es[j]) && es[j].key != "c"
    ensures forall j :: 0 <= j < |es| - 1 ==> WellFormed(es[1..][j]) && es[1..][j].key != "c"
  {
    assert forall j :: 0 <= j < |es| - 1 ==> es[1..][j] == es[j + 1];
  }

  /** The tokens of well-formed entries followed by a tail that starts with a visual key start with a visual key. */
  lemma RenderStartsWithKey(es: seq<Entry>, tail: seq<string>)
    requires forall j :: 0 <= j < |es| ==> WellFormed(es[j]) && es[j].key != "c"
    requires tail != [] ==> IsVisual(tail[0])
    ensures Render(es) + tail != [] ==> IsVisual((Render(es) + tail)[0])
  {
    if es != [] {
      assert WellFormed(es[0]);
    }
  }

  /** One well-formed entry other than `c` is skipped. */
  lemma SkipOne(e: Entry, more: seq<string>, names: map<string, Color>)
    requires WellFormed(e) && e.key != "c"
    requires more != [] ==> IsVisual(more[0])
    ensures ParseEntries([e.key] + (e.words + more), names) == ParseEntries(more, names)
  {
    var rest := e.words + more;
    NextKeyIndexAt(rest, |e.words|);
    assert rest[..|e.words|] == e.words && rest[|e.words|..] == more;
    JoinEmpty(e.words, " ");
    assert ([e.key] + rest)[1..] == rest;
  }

  /** A well-formed line without a `c` entry is a missing colour specification. */
  lemma NoColorEntry(es: seq<Entry>, names: map<string, Color>)
    requires forall j :: 0 <= j < |es| ==> WellFormed(es[j])
    requires forall j :: 0 <= j < |es| ==> es[j].key != "c"
    ensures ParseEntries(Render(es), names) == Err(MissingColorSpec)
  {
    SkippedEntries(es, [], names);
    assert Render(es) + [] == Render(es);
  }

  /**
   * After skipped entries, a lone visual key, or a visual key followed at
   * once by another, is a missing colour specification: "m black c" and
   * "m black g c red".
   */
  lemma MissingAfterSkipExamples(names: map<string, Color>)
    ensures ParseEntries(["m", "black", "c"], names) == Err(MissingColorSpec)
    ensures ParseEntries(["m", "black", "g", "c", "red"], names) == Err(MissingColorSpec)
  {
    var es := [Entry("m", ["black"])];
    assert WellFormed(es[0]);
    assert Render(es) == ["m", "black"];
    SkippedEntries(es, ["c"], names);
    assert Render(es) + ["c"] == ["m", "black", "c"];
    SkippedEntries(es, ["g", "c", "red"], names);
    assert Render(es) + ["g", "c", "red"] == ["m", "black", "g", "c", "red"];
  }

  /**
   * A colour line built from a key and well-formed entries parses back to
   * that key and the colour of its first `c` entry.
   */
  lemma ColorLineRoundTrip(key: string, es: seq<Entry>, k: nat, names: map<string, Color>)
    requires forall j :: 0 <= j < |es| ==> WellFormed(es[j])
    requires k < |es| && es[k].key == "c"
    requires forall j :: 0 <= j < k ==> es[j].key != "c"
    ensures ParseColor(ColorLineText(key, es), |key|, names) == match ColorOf(es[k], names)
              case Ok(c) => Ok((key, c))
              case Err(e) => Err(e)
  {
    var line := ColorLineText(key, es);
    assert line[..|key|] == key;
    assert line[|key|..] == " " + Join(Render(es), " ");
    RenderWords(es);
    FieldsSkipsSpace(" ", Join(Render(es), " "));
    FieldsJoin(Render(es));
    var after := es[k + 1..];
    assert es == es[..k + 1] + after;
    RenderAppend(es[..k + 1], after);
    if after != [] {
      assert WellFormed(after[0]);
    }
    FirstColorEntryWins(es, k, Render(after), names);
  }

  lemma {:induction false} RenderWords(es: seq<Entry>)
    requires forall j :: 0 <= j < |es| ==> WellFormed(es[j])
    ensures forall j :: 0 <= j < |Render(es)| ==> IsWord(Render(es)[j])
  {
    if es != [] {
      RenderWords(es[1..]);
      assert IsWord(es[0].key) by {
        assert forall k :: 0 <= k < |es[0].key| ==> es[0].key[k] in "cmsg4";
      }
    }
  }

  /** The first example of xpm/xpm_test.go:42-50: the key is the first character. */
  lemma ParseColorExample(names: map<string, Color>)
    ensures ParseColor(". c #000000", 1, names) == Ok((".", Color(0, 0, 0, 0xff)))
  {
    BlackLine(".", names);
    assert "." + " c #000000" == ". c #000000";
  }

  /** The second example of xpm/xpm_test.go:42-50: the key is the first character even when it is a space. */
  lemma ParseColorSpaceKeyExample(names: map<string, Color>)
    ensures ParseColor("  c #000000", 1, names) == Ok((" ", Color(0, 0, 0, 0xff)))
  {
    BlackLine(" ", names);
    assert " " + " c #000000" == "  c #000000";
  }

  /** A one-character key followed by a `c` entry of `#000000`. */
  lemma BlackLine(key: string, names: map<string, Color>)
    requires |key| == 1
    ensures ParseColor(key + " c #000000", 1, names) == Ok((key, Color(0, 0, 0, 0xff)))
  {
    BlackExample(names);
    var black := [Entry("c", ["#000000"])];
    assert WellFormed(black[0]);
    assert Join(["#000000"], " ") == "#000000";
    assert Render(black) == ["c", "#000000"];
    assert Join(Render(black), " ") == "c #000000";
    assert ColorLineText(key, black) == key + " c #000000";
    ColorLineRoundTrip(key, black, 0, names);
  }

  /**
   * The tokens of the colour line "r g gray g4 #888888 c red m black": the
   * grey entries before the `c` entry are skipped with their values and the
   * mono entry after it is never read.
   */
  lemma VisualPrecedenceExample(names: map<string, Color>)
    requires "red" in names
    ensures ParseEntries(["g", "gray", "g4", "#888888", "c", "red", "m", "black"], names) == Ok(names["red"])
  {
    var es := PrecedenceEntries();
    PrecedenceWellFormed();
    RedEntry(names);
    PrecedenceTokens();
    FirstColorEntryWins(es, 2, ["m", "black"], names);
  }

  lemma PrecedenceWellFormed()
    ensures var es := PrecedenceEntries();
            |es| == 3 && es[2].key == "c" &&
            (forall j :: 0 <= j <= 2 ==> WellFormed(es[j])) && (forall j :: 0 <= j < 2 ==> es[j].key != "c")
  {
    var es := PrecedenceEntries();
    assert WellFormed(es[0]);
    assert WellFormed(es[1]);
    assert WellFormed(es[2]);
  }

  function PrecedenceEntries(): seq<Entry> {
    [Entry("g", ["gray"]), Entry("g4", ["#888888"]), Entry("c", ["red"])]
  }

  lemma PrecedenceTokens()
    ensures Render(PrecedenceEntries()[..3]) + ["m", "black"] == ["g", "gray", "g4", "#888888", "c", "red", "m", "black"]
  {
    var es := PrecedenceEntries();
    assert es[..3] == es;
    assert Render(es[2..]) == ["c", "red"];
    assert Render(es[1..]) == ["g4", "#888888", "c", "red"];
  }

  lemma RedEntry(names: map<string, Color>)
    requires "red" in names
    ensures WellFormed(Entry("c", ["red"])) && ColorOf(Entry("c", ["red"]), names) == Ok(names["red"])
  {
    assert Join(["red"], " ") == "red";
    assert !EqualFold("red", "none");
  }

  /**
   * The colour line ". c red m": the value of the `c` entry is resolved and
   * the lone `m` after it is never read, so the line does not fail.
   */
  lemma TrailingKeyIgnoredExample(names: map<string, Color>)
    requires "red" in names
    ensures ParseColor(". c red m", 1, names) == Ok((".", names["red"]))
  {
    TrailingKeyTokens();
    TrailingKeyEntries(names);
    assert ". c red m"[1..] == " c red m";
    assert ". c red m"[..1] == ".";
  }

  lemma TrailingKeyEntries(names: map<string, Color>)
    requires "red" in names
    ensures ParseEntries(["c", "red", "m"], names) == Ok(names["red"])
  {
    var es := [Entry("c", ["red"])];
    RedEntry(names);
    assert Render(es[..1]) + ["m"] == ["c", "red", "m"];
    FirstColorEntryWins(es, 0, ["m"], names);
  }

  lemma TrailingKeyTokens()
    ensures Fields(" c red m") == ["c", "red", "m"]
  {
    TrailingKeyJoin();
    FieldsJoin(["c", "red", "m"]);
    FieldsSkipsSpace(" ", "c red m");
    assert " " + "c red m" == " c red m";
  }

  lemma TrailingKeyJoin()
    ensures Join(["c", "red", "m"], " ") == "c red m"
    ensures forall j :: 0 <= j < 3 ==> IsWord(["c", "red", "m"][j])
  {
    var toks := ["c", "red", "m"];
    assert Join(toks[2..], " ") == "m";
    assert Join(toks[1..], " ") == "red m";
    assert IsWord(toks[0]) && IsWord(toks[1]) && IsWord(toks[2]);
  }
}
