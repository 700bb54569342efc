/** Python's `repr` of a list of strings, as an f-string interpolates it, for
    the strings whose own `repr` needs no escaping, together with a reader
    that recovers the list from that text. */
module PyRepr {
  import opened Options

  /** A string whose `repr` is itself between single quotes: printable ASCII
      with no single quote or backslash to escape. */
  predicate ReprVerbatim(e: string) {
    forall i :: 0 <= i < |e| ==> ' ' <= e[i] <= '~' && e[i] != '\'' && e[i] != '\\'
  }

  predicate AllVerbatim(items: seq<string>) {
    forall i :: 0 <= i < |items| ==> ReprVerbatim(items[i])
  }

  /** The inside of the list `repr`: each item single-quoted, separated by ", ".
      Nothing is lost: `ParseItems` reads the items back, in order. */
  function ReprItems(items: seq<string>): (r: string)
    requires AllVerbatim(items)
    ensures ParseItems(r) == Some(items)
  {
    if items == [] then ""
    else if |items| == 1 then
      ParseLastItem(items[0]);
      assert [items[0]] == items;
      "'" + items[0] + "'"
    else
      var rest := ReprItems(items[1..]);
      ParseItemThenMore(items[0], rest);
      assert [items[0]] + items[1..] == items;
      "'" + items[0] + "', " + rest
  }

  /** `repr(items)`, e.g. `['Query is empty']`; `ParseList` reads it back. */
  function ReprList(items: seq<string>): (r: string)
    requires AllVerbatim(items)
    ensures ParseList(r) == Some(items)
  {
    var inner := ReprItems(items);
    var r := "[" + inner + "]";
    assert r[1..|r| - 1] == inner;
    r
  }

  /** Position of the first single quote in `s`, or `|s|` when there is none. */
  function QuoteIndex(s: string): (k: nat)
    ensures k <= |s|
    ensures forall i :: 0 <= i < k ==> s[i] != '\''
    ensures k < |s| ==> s[k] == '\''
  {
    if s == [] || s[0] == '\'' then 0 else 1 + QuoteIndex(s[1..])
  }

  /** Reads back the inside of a list `repr`: a sequence of single-quoted
      items separated by ", ". */
  function ParseItems(body: string): Option<seq<string>>
    decreases |body|
  {
    if body == [] then Some([])
    else if body[0] != '\'' then None
    else
      var k := QuoteIndex(body[1..]);
      if k == |body| - 1 then None
      else
        var item := body[1..k + 1];
        var rest := body[k + 2..];
        if rest == [] then Some([item])
        else if |rest| >= 2 && rest[..2] == ", " then
          match ParseItems(rest[2..])
          case Some(more) => Some([item] + more)
          case None => None
        else None
  }

  /** Reads back a whole list `repr`. */
  function ParseList(s: string): Option<seq<string>> {
    if |s| >= 2 && s[0] == '[' && s[|s| - 1] == ']' then ParseItems(s[1..|s| - 1])
    else None
  }

  /** After an item without quotes, the next quote is the closing one. */
  lemma {:induction false} QuoteIndexSkipsItem(e: string, rest: string)
    requires ReprVerbatim(e)
    ensures QuoteIndex(e + "'" + rest) == |e|
  {
    if e != [] {
      assert (e + "'" + rest)[1..] == e[1..] + "'" + rest;
      assert ReprVerbatim(e[1..]) by {
        forall i | 0 <= i < |e[1..]| ensures ' ' <= e[1..][i] <= '~' && e[1..][i] != '\'' && e[1..][i] != '\\' {
          assert e[1..][i] == e[i + 1];
        }
      }
      assert (e + "'" + rest)[0] == e[0];
      QuoteIndexSkipsItem(e[1..], rest);
    }
  }

  /** A lone quoted item reads back as a one-item list. */
  lemma ParseLastItem(e: string)
    requires ReprVerbatim(e)
    ensures ParseItems("'" + e + "'") == Some([e])
  {
    var body := "'" + e + "'";
    assert body[1..] == e + "'" + "";
    QuoteIndexSkipsItem(e, "");
    assert body[1..|e| + 1] == e;
    assert body[|e| + 2..] == [];
  }

  /** A quoted item followed by ", " reads back as that item in front of
      whatever the rest reads back as. */
  lemma ParseItemThenMore(e: string, rest: string)
    requires ReprVerbatim(e)
    ensures ParseItems("'" + e + "', " + rest)
         == match ParseItems(rest)
            case Some(more) => Some([e] + more)
            case None => None
  {
    var body := "'" + e + "', " + rest;
    var tail := ", " + rest;
    assert body[1..] == e + "'" + tail;
    QuoteIndexSkipsItem(e, tail);
    assert body[1..|e| + 1] == e;
    assert body[|e| + 2..] == tail;
    assert tail[..2] == ", " && tail[2..] == rest;
  }

  /** A one-item list is the item between `['` and `']`. */
  lemma ReprListSingle(e: string)
    requires ReprVerbatim(e)
    ensures ReprList([e]) == "['" + e + "']"
  {
  }
}
