/** The CSV export of both dashboards: a header line, then one line per
    row with the destination in double quotes and the follower count,
    joined by newlines with no trailing newline. Destinations are not
    escaped. `ParseCsv` is the reading the format invites (split on
    newlines, take each quoted destination up to the next quote), used to
    state when the export can be read back. */
module CsvExport {

  import opened Wrappers
  import JsText
  import VacationRoutes

  type Row = VacationRoutes.StatRow

  const Header: string := "Destination,Followers Count"

  /** `["\"" + destination + "\"", followerCount].join(",")`: the
      destination between quotes, a comma, then the count in decimal. */
  function Line(r: Row): (l: string)
    ensures |l| > |r.destination| + 3
    ensures l[0] == '"' && l[1..|r.destination| + 1] == r.destination
    ensures l[|r.destination| + 1] == '"' && l[|r.destination| + 2] == ','
    ensures JsText.ParseNat(l[|r.destination| + 3..]) == Some(r.followerCount)
  {
    var l := "\"" + r.destination + "\"," + JsText.NatToString(r.followerCount);
    JsText.ParseNatToString(r.followerCount);
    assert l[|r.destination| + 3..] == JsText.NatToString(r.followerCount);
    l
  }

  function Lines(rows: seq<Row>): (ls: seq<string>)
    ensures |ls| == |rows|
    ensures forall i :: 0 <= i < |rows| ==> ls[i] == Line(rows[i])
  {
    if |rows| == 0 then [] else [Line(rows[0])] + Lines(rows[1..])
  }

  /** The exported text: its first line is the header, and it has at least
      one line per row after it. */
  function Csv(rows: seq<Row>): (text: string)
    ensures JsText.Split(text, '\n')[0] == Header
    ensures |JsText.Split(text, '\n')| >= |rows| + 1
  {
    var pieces := [Header] + Lines(rows);
    var text := JsText.Join(pieces, '\n');
    JsText.JoinCount(pieces, '\n');
    JsText.SplitLength(text, '\n');
    assert '\n' !in Header;
    if |rows| == 0 then
      JsText.SplitAfterWord(Header, "", '\n');
      text
    else
      assert text == Header + ['\n'] + JsText.Join(pieces[1..], '\n');
      JsText.SplitAfterWord(Header, JsText.Join(pieces[1..], '\n'), '\n');
      text
  }

  /** One line read back: a quote, the destination up to the next quote,
      a comma, then nothing but digits. */
  function ParseLine(l: string): (r: Option<Row>)
    ensures r.Some? ==> '"' !in r.value.destination
    ensures r.Some? ==> forall c :: c in r.value.destination ==> c in l
  {
    if |l| == 0 || l[0] != '"' then None
    else
      match JsText.IndexOf(l[1..], '"')
      case None => None
      case Some(k) =>
        if k + 2 < |l| && l[k + 2] == ',' then
          match JsText.ParseNat(l[k + 3..])
          case None => None
          case Some(n) =>
            assert l[1..][..k] == l[1..k + 1];
            Some(VacationRoutes.StatRow(l[1..k + 1], n))
        else None
  }

  /** Reads every line, failing if any line fails. */
  function ParseLines(ls: seq<string>): (r: Option<seq<Row>>)
    ensures r.Some? ==> |r.value| == |ls|
    ensures r.Some? ==> forall i :: 0 <= i < |ls| ==> ParseLine(ls[i]) == Some(r.value[i])
    ensures r.None? ==> exists i :: 0 <= i < |ls| && ParseLine(ls[i]).None?
  {
    if |ls| == 0 then Some([])
    else
      match ParseLine(ls[0])
      case None => None
      case Some(row) =>
        match ParseLines(ls[1..])
        case None =>
          var i :| 0 <= i < |ls[1..]| && ParseLine(ls[1..][i]).None?;
          assert ParseLine(ls[i + 1]).None?;
          None
        case Some(rest) =>
          assert forall i :: 1 <= i < |ls| ==> ls[i] == ls[1..][i - 1];
          Some([row] + rest)
  }

  /** A destination that survives the export unchanged: no quote and no
      newline. */
  predicate Clean(r: Row) {
    '"' !in r.destination && '\n' !in r.destination
  }

  /** Reads a whole export: the header line, then the rows. */
  function ParseCsv(text: string): (r: Option<seq<Row>>)
    ensures r.Some? ==> forall i :: 0 <= i < |r.value| ==> Clean(r.value[i])
  {
    var ls := JsText.Split(text, '\n');
    if ls[0] != Header then None
    else
      var rows := ParseLines(ls[1..]);
      if rows.Some? then
        assert forall i :: 0 <= i < |rows.value| ==> Clean(rows.value[i]) by {
          forall i | 0 <= i < |rows.value| ensures Clean(rows.value[i]) {
            assert ParseLine(ls[1..][i]) == Some(rows.value[i]);
            assert '\n' !in ls[1..][i];
          }
        }
        rows
      else rows
  }

  /** A clean row's line reads back as the row; a row with a quote in its
      destination does not. */
  lemma ParseLineOfLine(r: Row)
    ensures ParseLine(Line(r)) == Some(r) <==> '"' !in r.destination
  {
    if '"' !in r.destination {
      var l := Line(r);
      var d := r.destination;
      var digits := JsText.NatToString(r.followerCount);
      assert l[1..] == d + "\"," + digits;
      assert JsText.IndexOf(l[1..], '"') == Some(|d|) by {
        var k := JsText.IndexOf(l[1..], '"');
        assert (d + "\"," + digits)[|d|] == '"';
        assert k.Some?;
      }
      assert l[|d| + 2] == ',';
      assert l[|d| + 3..] == digits;
      JsText.ParseNatToString(r.followerCount);
      assert l[1..|d| + 1] == d;
    }
  }

  /** A row's line contains a newline exactly when its destination does:
      the quotes, the comma and the digits never do. */
  lemma LineNewline(r: Row)
    ensures '\n' in Line(r) <==> '\n' in r.destination
  {
    var digits := JsText.NatToString(r.followerCount);
    assert '\n' !in digits;
    assert Line(r) == ("\"" + r.destination) + ("\"," + digits);
  }

  /** The pieces that are joined: the header and the row lines. */
  lemma PiecesNewlines(rows: seq<Row>)
    ensures '\n' !in Header
    ensures forall i :: 0 <= i < |rows| ==> ('\n' in Lines(rows)[i] <==> '\n' in rows[i].destination)
  {
    forall i | 0 <= i < |rows|
      ensures '\n' in Lines(rows)[i] <==> '\n' in rows[i].destination
    {
      LineNewline(rows[i]);
    }
  }

  /** The export has one line more than there are rows exactly when no
      destination contains a newline; otherwise it has more. */
  lemma LineCount(rows: seq<Row>)
    ensures |JsText.Split(Csv(rows), '\n')| >= |rows| + 1
    ensures |JsText.Split(Csv(rows), '\n')| == |rows| + 1 <==>
            forall i :: 0 <= i < |rows| ==> '\n' !in rows[i].destination
  {
    var pieces := [Header] + Lines(rows);
    PiecesNewlines(rows);
    JsText.SplitLength(Csv(rows), '\n');
    JsText.JoinCount(pieces, '\n');
    if exists i :: 0 <= i < |rows| && '\n' in rows[i].destination {
      var i :| 0 <= i < |rows| && '\n' in rows[i].destination;
      assert '\n' in pieces[i + 1];
    } else {
      assert forall i :: 0 <= i < |pieces| ==> '\n' !in pieces[i] by {
        forall i | 0 <= i < |pieces| ensures '\n' !in pieces[i] {
          if i > 0 { assert pieces[i] == Lines(rows)[i - 1]; }
        }
      }
    }
  }

  /** Reading the export gives back exactly the exported rows if and only
      if no destination contains a quote or a newline. */
  lemma CsvRoundTrip(rows: seq<Row>)
    ensures ParseCsv(Csv(rows)) == Some(rows) <==> forall i :: 0 <= i < |rows| ==> Clean(rows[i])
  {
    if forall i :: 0 <= i < |rows| ==> Clean(rows[i]) {
      var pieces := [Header] + Lines(rows);
      PiecesNewlines(rows);
      assert forall i :: 0 <= i < |pieces| ==> '\n' !in pieces[i] by {
        forall i | 0 <= i < |pieces| ensures '\n' !in pieces[i] {
          if i > 0 { assert pieces[i] == Lines(rows)[i - 1]; }
        }
      }
      JsText.SplitJoin(pieces, '\n');
      assert pieces[1..] == Lines(rows);
      forall i | 0 <= i < |rows| ensures ParseLine(Line(rows[i])) == Some(rows[i]) {
        ParseLineOfLine(rows[i]);
      }
      ParseLinesOfLines(rows);
    }
  }

  lemma {:induction false} ParseLinesOfLines(rows: seq<Row>)
    requires forall i :: 0 <= i < |rows| ==> ParseLine(Line(rows[i])) == Some(rows[i])
    ensures ParseLines(Lines(rows)) == Some(rows)
  {
    if |rows| > 0 {
      var tail := rows[1..];
      assert forall i :: 0 <= i < |tail| ==> tail[i] == rows[i + 1];
      ParseLinesOfLines(tail);
      assert Lines(rows)[1..] == Lines(tail);
      assert [rows[0]] + tail == rows;
    }
  }
}
