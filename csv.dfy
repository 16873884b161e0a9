/** The text `saveCsv` writes (index.js:50-62) and the date display of the
    transactions file (index.js:191).

    A row is a JavaScript object: its own keys in order and a value per
    key. The header is the keys of the first row; every row is written as
    its values under those keys, joined by commas, and lines are joined by
    newlines. Nothing is quoted or escaped. */
module Csv {
  import opened Wrappers

  // ------------------------------------------------------------ join/split

  /** `Array.prototype.join(sep)` over strings. */
  function Join(cells: seq<string>, sep: char): string {
    if |cells| == 0 then ""
    else if |cells| == 1 then cells[0]
    else cells[0] + [sep] + Join(cells[1..], sep)
  }

  /** `String.prototype.split(sep)`: the pieces between the separators;
      there is always at least one. */
  function Split(s: string, sep: char): (r: seq<string>)
    ensures |r| > 0
  {
    if s == [] then [""]
    else
      var rest := Split(s[1..], sep);
      if s[0] == sep then [""] + rest
      else [[s[0]] + rest[0]] + rest[1..]
  }

  /** No cell holds the separator. */
  predicate Plain(cells: seq<string>, sep: char) {
    forall i :: 0 <= i < |cells| ==> sep !in cells[i]
  }

  lemma {:induction false} SplitPlain(c: string, sep: char)
    requires sep !in c
    ensures Split(c, sep) == [c]
  {
    if c != [] {
      SplitPlain(c[1..], sep);
      assert [c[0]] + c[1..] == c;
    }
  }

  lemma {:induction false} SplitFirst(c: string, sep: char, rest: string)
    requires sep !in c
    ensures Split(c + [sep] + rest, sep) == [c] + Split(rest, sep)
  {
    if c == [] {
      assert c + [sep] + rest == [sep] + rest;
    } else {
      assert (c + [sep] + rest)[1..] == c[1..] + [sep] + rest;
      SplitFirst(c[1..], sep, rest);
      assert [c[0]] + c[1..] == c;
    }
  }

  /** Splitting undoes joining, as long as some cell is joined and no cell
      holds the separator. */
  lemma {:induction false} SplitJoin(cells: seq<string>, sep: char)
    requires |cells| > 0 && Plain(cells, sep)
    ensures Split(Join(cells, sep), sep) == cells
  {
    if |cells| == 1 {
      SplitPlain(cells[0], sep);
    } else {
      assert Plain(cells[1..], sep);
      SplitJoin(cells[1..], sep);
      SplitFirst(cells[0], sep, Join(cells[1..], sep));
      assert [cells[0]] + cells[1..] == cells;
    }
  }

  /** A character that no cell holds is not in their join either. */
  lemma {:induction false} JoinKeepsOut(cells: seq<string>, sep: char, c: char)
    requires c != sep && Plain(cells, c)
    ensures c !in Join(cells, sep)
  {
    if |cells| > 1 {
      assert Plain(cells[1..], c);
      JoinKeepsOut(cells[1..], sep, c);
    }
  }

  // --------------------------------------------------------------- records

  /** A property value: text, a number, or `undefined`/`null`. */
  datatype Value = Text(text: string) | Number(x: real) | Missing

  /** An object: its own keys in order, and its properties. Keys are drawn
      from `K`; `name` gives each key's text. */
  datatype Record<K> = Record(keys: seq<K>, fields: map<K, Value>)

  /** The text `join` gives a value: `undefined` and `null` become the
      empty string, numbers are written by `fmt`, JavaScript's number to
      string conversion, which this model leaves as a parameter. */
  function Render(v: Value, fmt: real -> string): string {
    match v
    case Text(s) => s
    case Number(x) => fmt(x)
    case Missing => ""
  }

  /** `r[k]` rendered: a key the object lacks reads as `undefined`. */
  function Cell<K>(r: Record<K>, key: K, fmt: real -> string): (c: string)
    ensures key !in r.fields ==> c == ""
    ensures key in r.fields ==> c == Render(r.fields[key], fmt)
  {
    if key in r.fields then Render(r.fields[key], fmt) else ""
  }

  /** `keys.map((k) => r[k])` (index.js:54). */
  function Cells<K>(keys: seq<K>, r: Record<K>, fmt: real -> string): (cs: seq<string>)
    ensures |cs| == |keys|
    ensures forall i :: 0 <= i < |keys| ==> cs[i] == Cell(r, keys[i], fmt)
  {
    seq(|keys|, i requires 0 <= i < |keys| => Cell(r, keys[i], fmt))
  }

  /** The header's fields: the text of each key. */
  function Names<K>(keys: seq<K>, name: K -> string): (ns: seq<string>)
    ensures |ns| == |keys|
    ensures forall i :: 0 <= i < |keys| ==> ns[i] == name(keys[i])
  {
    seq(|keys|, i requires 0 <= i < |keys| => name(keys[i]))
  }

  /** The lines of the rows under `keys`, one per row. */
  function Lines<K>(keys: seq<K>, rows: seq<Record<K>>, fmt: real -> string): (ls: seq<string>)
    ensures |ls| == |rows|
    ensures forall i :: 0 <= i < |rows| ==> ls[i] == Join(Cells(keys, rows[i], fmt), ',')
  {
    if rows == [] then []
    else Lines(keys, rows[..|rows| - 1], fmt) + [Join(Cells(keys, rows[|rows| - 1], fmt), ',')]
  }

  /** The file `saveCsv` writes (index.js:52-55); nothing is written for
      no rows. */
  function CsvText<K>(rows: seq<Record<K>>, name: K -> string, fmt: real -> string): (r: Option<string>)
    ensures r.None? <==> rows == []
  {
    if rows == [] then None
    else
      var keys := rows[0].keys;
      Some(Join([Join(Names(keys, name), ',')] + Lines(keys, rows, fmt), '\n'))
  }

  /** No key and no cell of any row under `keys` holds a comma or a
      newline. */
  predicate Unquoted<K>(keys: seq<K>, rows: seq<Record<K>>, name: K -> string, fmt: real -> string) {
    Plain(Names(keys, name), ',') && Plain(Names(keys, name), '\n') &&
    forall i :: 0 <= i < |rows| ==>
      Plain(Cells(keys, rows[i], fmt), ',') && Plain(Cells(keys, rows[i], fmt), '\n')
  }

  /** Reading the file back: its lines are the header and then one line
      per row, and each line's fields are the key names, then the row's
      values under those keys, in order, as long as no key or value holds
      a comma or a newline and the first row has a key. */
  lemma CsvReadsBack<K>(rows: seq<Record<K>>, name: K -> string, fmt: real -> string)
    requires rows != [] && |rows[0].keys| > 0
    requires Unquoted(rows[0].keys, rows, name, fmt)
    ensures var keys := rows[0].keys;
      var lines := Split(CsvText(rows, name, fmt).value, '\n');
      |lines| == |rows| + 1 &&
      Split(lines[0], ',') == Names(keys, name) &&
      forall i :: 0 <= i < |rows| ==> Split(lines[i + 1], ',') == Cells(keys, rows[i], fmt)
  {
    var keys := rows[0].keys;
    var body := Lines(keys, rows, fmt);
    var all := [Join(Names(keys, name), ',')] + body;
    JoinKeepsOut(Names(keys, name), ',', '\n');
    forall i | 0 <= i < |rows| ensures '\n' !in body[i] && Split(body[i], ',') == Cells(keys, rows[i], fmt) {
      JoinKeepsOut(Cells(keys, rows[i], fmt), ',', '\n');
      SplitJoin(Cells(keys, rows[i], fmt), ',');
    }
    assert Plain(all, '\n');
    SplitJoin(all, '\n');
    SplitJoin(Names(keys, name), ',');
  }

  // ----------------------------------------------------------------- dates

  /** The characters `String.prototype.trim` removes: white space and line
      terminators as JavaScript defines them. */
  predicate IsJsSpace(c: char) {
    var n := c as int;
    n == 0x09 || n == 0x0A || n == 0x0B || n == 0x0C || n == 0x0D || n == 0x20 ||
    n == 0xA0 || n == 0x1680 || (0x2000 <= n <= 0x200A) || n == 0x2028 || n == 0x2029 ||
    n == 0x202F || n == 0x205F || n == 0x3000 || n == 0xFEFF
  }

  /** A `T` or `Z` made a space. */
  function Blanked(c: char): char {
    if c == 'T' || c == 'Z' then ' ' else c
  }

  /** `replace(/[TZ]/g, " ")`. */
  function ReplaceTZ(s: string): string {
    if s == [] then [] else [Blanked(s[0])] + ReplaceTZ(s[1..])
  }

  /** `replace` keeps the length and blanks each `T` and `Z` in place. */
  lemma {:induction false} ReplaceTZShape(s: string)
    ensures |ReplaceTZ(s)| == |s|
    ensures forall i :: 0 <= i < |s| ==> ReplaceTZ(s)[i] == Blanked(s[i])
  {
    if s != [] {
      ReplaceTZShape(s[1..]);
    }
  }

  /** The suffix of `s` after its leading white space. */
  function TrimStart(s: string): string {
    if s != [] && IsJsSpace(s[0]) then TrimStart(s[1..]) else s
  }

  /** The prefix of `s` before its trailing white space. */
  function TrimEnd(s: string): string {
    if s != [] && IsJsSpace(s[|s| - 1]) then TrimEnd(s[..|s| - 1]) else s
  }

  /** `trim()`. */
  function Trim(s: string): string {
    TrimEnd(TrimStart(s))
  }

  /** What `TrimStart` leaves is a suffix that does not start with white
      space, and all it drops is white space. */
  lemma {:induction false} TrimStartShape(s: string)
    ensures var r := TrimStart(s);
      |r| <= |s| && r == s[|s| - |r|..] &&
      (forall i :: 0 <= i < |s| - |r| ==> IsJsSpace(s[i])) &&
      (r == [] || !IsJsSpace(r[0]))
  {
    if s != [] && IsJsSpace(s[0]) {
      TrimStartShape(s[1..]);
      var r := TrimStart(s);
      assert s[1..][|s| - 1 - |r|..] == s[|s| - |r|..];
    }
  }

  /** What `TrimEnd` leaves is a prefix that does not end with white
      space, and all it drops is white space. */
  lemma {:induction false} TrimEndShape(s: string)
    ensures var r := TrimEnd(s);
      |r| <= |s| && r == s[..|r|] &&
      (forall i :: |r| <= i < |s| ==> IsJsSpace(s[i])) &&
      (r == [] || !IsJsSpace(r[|r| - 1]))
  {
    if s != [] && IsJsSpace(s[|s| - 1]) {
      TrimEndShape(s[..|s| - 1]);
      var r := TrimEnd(s);
      assert s[..|s| - 1][..|r|] == s[..|r|];
    }
  }

  /** The date column of the transactions file (index.js:191): the ISO
      text with `T` and `Z` made spaces, trimmed. */
  function DisplayDate(iso: string): (r: string)
    ensures |r| <= |iso|
  {
    var s := ReplaceTZ(iso);
    ReplaceTZShape(iso);
    TrimStartShape(s);
    TrimEndShape(TrimStart(s));
    Trim(s)
  }

  /** The shown date holds no `T` or `Z`, neither starts nor ends with
      white space, and is a piece of the ISO text with `T` and `Z` made
      spaces. */
  lemma DisplayDateShape(iso: string)
    ensures var r := DisplayDate(iso);
      'T' !in r && 'Z' !in r &&
      (r == [] || (!IsJsSpace(r[0]) && !IsJsSpace(r[|r| - 1]))) &&
      exists i, j :: 0 <= i <= j <= |ReplaceTZ(iso)| && r == ReplaceTZ(iso)[i..j]
  {
    var s := ReplaceTZ(iso);
    ReplaceTZLeavesNoTZ(iso);
    var t := TrimStart(s);
    TrimStartShape(s);
    var r := TrimEnd(t);
    TrimEndShape(t);
    var i, j := |s| - |t|, |s| - |t| + |r|;
    assert r == s[i..j];
  }

  lemma {:induction false} ReplaceTZLeavesNoTZ(s: string)
    ensures 'T' !in ReplaceTZ(s) && 'Z' !in ReplaceTZ(s)
  {
    if s != [] {
      ReplaceTZLeavesNoTZ(s[1..]);
    }
  }

  /** Trimming what is trimmed changes nothing. */
  lemma TrimIdempotent(s: string)
    ensures Trim(Trim(s)) == Trim(s)
  {
    var t := TrimStart(s);
    var r := TrimEnd(t);
    TrimStartShape(s);
    TrimEndShape(t);
    assert TrimStart(r) == r;
    assert TrimEnd(r) == r;
  }

  /** Showing a shown date changes nothing. */
  lemma DisplayDateIdempotent(iso: string)
    ensures DisplayDate(DisplayDate(iso)) == DisplayDate(iso)
  {
    var r := DisplayDate(iso);
    DisplayDateShape(iso);
    NoTZUnchanged(r);
    assert TrimStart(r) == r;
    assert TrimEnd(r) == r;
  }

  lemma {:induction false} NoTZUnchanged(s: string)
    requires 'T' !in s && 'Z' !in s
    ensures ReplaceTZ(s) == s
  {
    if s != [] {
      assert forall c :: c in s[1..] ==> c in s;
      NoTZUnchanged(s[1..]);
      assert [s[0]] + s[1..] == s;
    }
  }

  lemma {:induction false} ReplaceTZAppend(a: string, b: string)
    ensures ReplaceTZ(a + b) == ReplaceTZ(a) + ReplaceTZ(b)
  {
    if a == [] {
      assert a + b == b;
    } else {
      assert (a + b)[1..] == a[1..] + b;
      ReplaceTZAppend(a[1..], b);
    }
  }

  /** A timestamp of the API, `{date}T{time}Z`, is shown as its date and
      time with a space between them. */
  lemma DisplayTimestamp(date: string, time: string)
    requires date != [] && time != []
    requires 'T' !in date && 'Z' !in date && 'T' !in time && 'Z' !in time
    requires !IsJsSpace(date[0]) && !IsJsSpace(time[|time| - 1])
    ensures DisplayDate(date + "T" + time + "Z") == date + " " + time
  {
    var shown := date + " " + time;
    ReplaceTZAppend(date + "T" + time, "Z");
    ReplaceTZAppend(date + "T", time);
    ReplaceTZAppend(date, "T");
    NoTZUnchanged(date);
    NoTZUnchanged(time);
    assert ReplaceTZ("T") == " " && ReplaceTZ("Z") == " ";
    var s := ReplaceTZ(date + "T" + time + "Z");
    assert s == shown + " ";
    assert s[0] == date[0];
    assert TrimStart(s) == s;
    assert s[..|s| - 1] == shown;
    assert TrimEnd(shown) == shown;
  }
}
