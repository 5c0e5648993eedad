/**
 * The parts of Go's `strings` package that the XPM decoder relies on:
 * `strings.Fields`, `strings.Join`, `strings.Split` with a one-character
 * separator and `strings.Index` with a one-character needle.
 *
 * A `char` stands for one byte of a Go string, so `|s|` is Go's `len(s)`.
 */
module GoStrings {

  /** ASCII white space as `unicode.IsSpace` sees it: space, \t, \n, \v, \f, \r. */
  predicate IsSpace(c: char) {
    c == ' ' || ('\t' <= c <= '\r')
  }

  /** A token that `strings.Fields` can produce: non-empty, without white space. */
  predicate IsWord(w: string) {
    w != [] && forall k :: 0 <= k < |w| ==> !IsSpace(w[k])
  }

  /** Index of the first `c` in `s`, or -1 (`strings.Index(s, string(c))`). */
  function IndexOf(s: string, c: char): (i: int)
    ensures -1 <= i < |s|
    ensures i == -1 <==> c !in s
    ensures 0 <= i ==> s[i] == c && c !in s[..i]
  {
    if s == [] then -1
    else if s[0] == c then 0
    else
      var j := IndexOf(s[1..], c);
      if j == -1 then -1
      else
        assert s[..j + 1] == [s[0]] + s[1..][..j];
        j + 1
  }

  /** `strings.Index` finds the first occurrence. */
  lemma {:induction false} FirstIndex(s: string, c: char, k: nat)
    requires k < |s| && s[k] == c
    requires forall j :: 0 <= j < k ==> s[j] != c
    ensures IndexOf(s, c) == k
  {
    if k > 0 {
      assert s[0] != c;
      forall j | 0 <= j < k - 1
        ensures s[1..][j] != c
      {
        assert s[1..][j] == s[j + 1];
      }
      FirstIndex(s[1..], c, k - 1);
    }
  }

  /** Length of the leading run of non-white-space characters of `s`. */
  function WordEnd(s: string): (n: nat)
    ensures n <= |s|
    ensures forall k :: 0 <= k < n ==> !IsSpace(s[k])
    ensures n < |s| ==> IsSpace(s[n])
  {
    if s == [] || IsSpace(s[0]) then 0 else 1 + WordEnd(s[1..])
  }

  /** `strings.Fields`: the maximal runs of non-white-space characters, in order. */
  function Fields(s: string): (r: seq<string>)
    ensures forall j :: 0 <= j < |r| ==> IsWord(r[j])
    decreases |s|
  {
    if s == [] then []
    else if IsSpace(s[0]) then Fields(s[1..])
    else
      var n := WordEnd(s);
      [s[..n]] + Fields(s[n..])
  }

  /** `strings.Join`: the parts with `sep` between each neighbouring pair. */
  function Join(parts: seq<string>, sep: string): (r: string)
    ensures parts != [] ==> parts[0] <= r
  {
    if parts == [] then ""
    else if |parts| == 1 then parts[0]
    else parts[0] + sep + Join(parts[1..], sep)
  }

  /** `strings.Split(s, string(sep))`: the pieces between successive `sep`s. */
  function Split(s: string, sep: char): (r: seq<string>)
    ensures |r| >= 1
    ensures forall j :: 0 <= j < |r| ==> sep !in r[j]
    decreases |s|
  {
    var i := IndexOf(s, sep);
    if i < 0 then [s]
    else
      var rest := Split(s[i + 1..], sep);
      assert forall j :: 0 < j < |rest| + 1 ==> ([s[..i]] + rest)[j] == rest[j - 1];
      [s[..i]] + rest
  }

  /** Joining with `sep` is empty exactly when there is at most one part and it is empty. */
  lemma {:induction false} JoinEmpty(parts: seq<string>, sep: string)
    requires sep != []
    ensures Join(parts, sep) == "" <==> parts == [] || parts == [""]
  {
    if |parts| > 1 {
      assert |Join(parts, sep)| >= |sep|;
    }
  }

  /** Splitting puts back exactly what joining took apart. */
  lemma {:induction false} SplitJoin(s: string, sep: char)
    ensures Join(Split(s, sep), [sep]) == s
    decreases |s|
  {
    var i := IndexOf(s, sep);
    if i < 0 {
      assert Split(s, sep) == [s];
    } else {
      var tail := s[i + 1..];
      var rest := Split(tail, sep);
      SplitJoin(tail, sep);
      assert Split(s, sep) == [s[..i]] + rest;
      JoinCons(s[..i], rest, [sep]);
      assert s == s[..i] + [sep] + tail;
    }
  }

  lemma JoinCons(x: string, rest: seq<string>, sep: string)
    requires rest != []
    ensures Join([x] + rest, sep) == x + sep + Join(rest, sep)
  {
    assert ([x] + rest)[1..] == rest;
  }

  /** Joining sep-free parts and splitting again gives the parts back. */
  lemma {:induction false} JoinSplit(parts: seq<string>, sep: char)
    requires parts != []
    requires forall j :: 0 <= j < |parts| ==> sep !in parts[j]
    ensures Split(Join(parts, [sep]), sep) == parts
  {
    if |parts| == 1 {
      assert IndexOf(parts[0], sep) == -1;
    } else {
      var rest := parts[1..];
      var s := Join(parts, [sep]);
      assert s == parts[0] + [sep] + Join(rest, [sep]);
      assert s[..|parts[0]|] == parts[0];
      assert s[|parts[0]|] == sep;
      assert IndexOf(s, sep) == |parts[0]|;
      assert s[|parts[0]| + 1..] == Join(rest, [sep]);
      JoinSplit(rest, sep);
    }
  }

  /** Leading white space does not change the fields. */
  lemma {:induction false} FieldsSkipsSpace(a: string, b: string)
    requires forall k :: 0 <= k < |a| ==> IsSpace(a[k])
    ensures Fields(a + b) == Fields(b)
    decreases |a|
  {
    if a != [] {
      assert (a + b)[0] == a[0];
      assert (a + b)[1..] == a[1..] + b;
      assert Fields(a + b) == Fields(a[1..] + b);
      FieldsSkipsSpace(a[1..], b);
    } else {
      assert a + b == b;
    }
  }

  /** Splitting words joined by single spaces gives the words back. */
  lemma {:induction false} FieldsJoin(words: seq<string>)
    requires forall j :: 0 <= j < |words| ==> IsWord(words[j])
    ensures Fields(Join(words, " ")) == words
  {
    if words == [] {
    } else if |words| == 1 {
      FieldsOfWord(words[0], "");
      assert words[0] + "" == words[0];
    } else {
      var rest := Join(words[1..], " ");
      assert Join(words, " ") == words[0] + (" " + rest);
      FieldsOfWord(words[0], " " + rest);
      FieldsSkipsSpace(" ", rest);
      FieldsJoin(words[1..]);
    }
  }

  /** A word followed by nothing or by white space is the first field. */
  lemma {:induction false} FieldsOfWord(w: string, tail: string)
    requires IsWord(w)
    requires tail == [] || IsSpace(tail[0])
    ensures Fields(w + tail) == [w] + Fields(tail)
  {
    var s := w + tail;
    assert s[..|w|] == w && s[|w|..] == tail;
    WordEndOf(w, tail);
  }

  lemma {:induction false} WordEndOf(w: string, tail: string)
    requires forall k :: 0 <= k < |w| ==> !IsSpace(w[k])
    requires tail == [] || IsSpace(tail[0])
    ensures WordEnd(w + tail) == |w|
  {
    if w != [] {
      assert (w + tail)[1..] == w[1..] + tail;
      WordEndOf(w[1..], tail);
    } else {
      assert w + tail == tail;
    }
  }
}
