/**
 * The two pieces of the response panel that compute something: the text of
 * the headers block (`formatHeaders`) and the class of the status badge.
 */
module Presentation {
  import opened JsBuiltins

  /** `Array.prototype.join`: the items with `sep` between neighbours; "" for no items. */
  function Join(items: seq<string>, sep: string): (s: string)
    ensures |items| == 0 ==> s == ""
    ensures |items| > 0 ==> |s| >= |items[0]| && s[..|items[0]|] == items[0]
  {
    if |items| == 0 then ""
    else if |items| == 1 then items[0]
    else
      var s := items[0] + sep + Join(items[1..], sep);
      assert s == items[0] + (sep + Join(items[1..], sep));
      s
  }

  /** `String.prototype.split` with a one-character separator. */
  function Split(s: string, sep: char): (parts: seq<string>)
    ensures |parts| > 0
  {
    if s == [] then [""]
    else
      var rest := Split(s[1..], sep);
      if s[0] == sep then [""] + rest else [[s[0]] + rest[0]] + rest[1..]
  }

  /** The line `${key}: ${value}` for one header. */
  function HeaderLine(key: string, value: string): (line: string)
    ensures |line| == |key| + 2 + |value|
    ensures line[..|key|] == key && line[|key|..|key| + 2] == ": " && line[|key| + 2..] == value
  {
    key + ": " + value
  }

  function HeaderLines(headers: Entries): (lines: seq<string>)
    ensures |lines| == |headers|
    ensures forall i :: 0 <= i < |headers| ==> lines[i] == HeaderLine(headers[i].0, headers[i].1)
  {
    if headers == [] then [] else [HeaderLine(headers[0].0, headers[0].1)] + HeaderLines(headers[1..])
  }

  /** `formatHeaders`: one line per header, in the object's order, joined by newlines. */
  function FormatHeaders(headers: Entries): (text: string)
    ensures text == "" <==> headers == []
  {
    Join(HeaderLines(headers), "\n")
  }

  predicate NoChar(s: string, c: char) {
    forall i :: 0 <= i < |s| ==> s[i] != c
  }

  /** Splitting a piece that holds no separator, followed by the separator and more, yields the piece first. */
  lemma {:induction false} SplitAfterPiece(piece: string, sep: char, more: string)
    requires NoChar(piece, sep)
    ensures Split(piece + [sep] + more, sep) == [piece] + Split(more, sep)
  {
    if piece == [] {
      assert piece + [sep] + more == [sep] + more;
      assert ([sep] + more)[1..] == more;
    } else {
      var s := piece + [sep] + more;
      assert s[1..] == piece[1..] + [sep] + more;
      SplitAfterPiece(piece[1..], sep, more);
      assert [piece[0]] + piece[1..] == piece;
    }
  }

  /** Splitting a piece that holds no separator gives the piece alone. */
  lemma {:induction false} SplitPiece(piece: string, sep: char)
    requires NoChar(piece, sep)
    ensures Split(piece, sep) == [piece]
  {
    if piece != [] {
      SplitPiece(piece[1..], sep);
      assert [piece[0]] + piece[1..] == piece;
    }
  }

  /** Joining items free of the separator and splitting again gives the items back. */
  lemma {:induction false} SplitJoin(items: seq<string>, sep: char)
    requires |items| > 0
    requires forall i :: 0 <= i < |items| ==> NoChar(items[i], sep)
    ensures Split(Join(items, [sep]), sep) == items
  {
    if |items| == 1 {
      SplitPiece(items[0], sep);
    } else {
      SplitJoin(items[1..], sep);
      SplitAfterPiece(items[0], sep, Join(items[1..], [sep]));
      assert [items[0]] + items[1..] == items;
    }
  }

  /**
   * Header names and values hold no line break, so the headers block has
   * exactly one line per header, `name: value`, in the object's order.
   */
  lemma FormatHeadersLines(headers: Entries)
    requires headers != []
    requires forall i :: 0 <= i < |headers| ==> NoChar(headers[i].0, '\n') && NoChar(headers[i].1, '\n')
    ensures var lines := Split(FormatHeaders(headers), '\n');
      && |lines| == |headers|
      && forall i :: 0 <= i < |headers| ==> lines[i] == HeaderLine(headers[i].0, headers[i].1)
  {
    var lines := HeaderLines(headers);
    forall i | 0 <= i < |lines| ensures NoChar(lines[i], '\n') {
      var k := headers[i].0;
      var v := headers[i].1;
      assert lines[i] == k + ": " + v;
      forall j | 0 <= j < |lines[i]| ensures lines[i][j] != '\n' {
        if j < |k| {
          assert lines[i][j] == k[j];
        } else if j >= |k| + 2 {
          assert lines[i][j] == v[j - |k| - 2];
        }
      }
    }
    SplitJoin(lines, '\n');
  }

  /** The status-badge modifier: `success` for a 2xx status, `error` otherwise. */
  function BadgeClass(status: int): (cls: string)
    ensures cls == "status-badge success" || cls == "status-badge error"
    ensures cls == "status-badge success" <==> 200 <= status < 300
  {
    "status-badge " + (if status >= 200 && status < 300 then "success" else "error")
  }
}
