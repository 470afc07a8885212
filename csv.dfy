/** The results export of the panel: one CSV line per task under a header line. The
    prompt cell is quoted with embedded quotes doubled, as section 2 (rule 7) of
    RFC 4180 prescribes. */
module Csv {
  import opened TextOps
  import opened Opt
  import opened Tasks

  /** `s.replace(/"/g, '""')`. */
  function Escape(s: string): (r: string)
    ensures |r| >= |s|
  {
    if |s| == 0 then ""
    else (if s[0] == '"' then "\"\"" else [s[0]]) + Escape(s[1..])
  }

  /** A cell in double quotes with its own quotes doubled. */
  function Quote(s: string): string {
    "\"" + Escape(s) + "\""
  }

  /** Reads the rest of a quoted cell after its opening quote: a doubled quote stands
      for one quote, a single quote closes the cell. Returns the cell's text and what
      follows the closing quote, or `None` when the cell is never closed. */
  function UnquoteBody(s: string): (r: Option<(string, string)>)
    ensures r.Some? ==> |r.value.1| < |s|
  {
    if |s| == 0 then None
    else if s[0] == '"' then
      if |s| >= 2 && s[1] == '"' then
        match UnquoteBody(s[2..])
        case None => None
        case Some((text, rest)) => Some(("\"" + text, rest))
      else Some(("", s[1..]))
    else
      match UnquoteBody(s[1..])
      case None => None
      case Some((text, rest)) => Some(([s[0]] + text, rest))
  }

  /** Reads one quoted cell at the front of `s`. */
  function Unquote(s: string): Option<(string, string)> {
    if |s| > 0 && s[0] == '"' then UnquoteBody(s[1..]) else None
  }

  /** Reading back a quoted cell gives the original text and what follows the cell on
      the line (a separator or the end, anything but a further quote): the quoting of
      rule 7 of RFC 4180 loses nothing. */
  lemma {:induction false} EscapeRoundTrip(s: string, rest: string)
    requires rest == [] || rest[0] != '"'
    ensures UnquoteBody(Escape(s) + "\"" + rest) == Some((s, rest))
  {
    if |s| > 0 {
      EscapeRoundTrip(s[1..], rest);
      var tail := Escape(s[1..]) + "\"" + rest;
      if s[0] == '"' {
        assert Escape(s) + "\"" + rest == "\"\"" + tail;
        assert ("\"\"" + tail)[2..] == tail;
      } else {
        assert Escape(s) + "\"" + rest == [s[0]] + tail;
        assert ([s[0]] + tail)[1..] == tail;
      }
      assert s == [s[0]] + s[1..];
    } else {
      assert Escape(s) + "\"" + rest == "\"" + rest;
    }
  }

  lemma QuoteRoundTrip(s: string, rest: string)
    requires rest == [] || rest[0] != '"'
    ensures Unquote(Quote(s) + rest) == Some((s, rest))
  {
    EscapeRoundTrip(s, rest);
    assert (Quote(s) + rest)[1..] == Escape(s) + "\"" + rest;
  }

  /** Text without quotes is quoted as it is. */
  lemma {:induction false} EscapeNoQuote(s: string)
    requires QuoteFree(s)
    ensures Escape(s) == s
  {
    if |s| > 0 {
      EscapeNoQuote(s[1..]);
      assert s == [s[0]] + s[1..];
    }
  }

  const Header: string := "ID,Type,Prompt,Status,Progress,VideoURLs,CreatedAt,CompletedAt"

  /** A date cell: empty when the time is unset (0), otherwise the ISO form, which the
      caller supplies since date formatting is not part of the model. */
  function DateCell(time: int, iso: int -> string): string {
    if time != 0 then iso(time) else ""
  }

  /** The eight cells of one task's line. The video urls are wrapped in quotes but
      their own quotes are not doubled, as in the source. */
  function Cells(t: Task, iso: int -> string): (r: seq<string>)
    ensures |r| == 8
  {
    [t.uuid,
     if Contains(t.uuid, "TXT") then "Text" else "Image",
     Quote(if t.text != "" then t.text else t.prompt),
     StatusName(t.status),
     IntToString(t.progress),
     "\"" + Join(t.videoUrls, ";") + "\"",
     DateCell(t.createdAt, iso),
     DateCell(t.completedAt, iso)]
  }

  function Row(t: Task, iso: int -> string): string {
    Join(Cells(t, iso), ",")
  }

  /** The whole file: the header, then one line per task in list order. */
  function Export(tasks: seq<Task>, iso: int -> string): (r: string) {
    Join([Header] + seq(|tasks|, i requires 0 <= i < |tasks| => Row(tasks[i], iso)), "\n")
  }

  /** The file is the header alone for no tasks, and exporting one more task adds a
      line break and that task's line at the end: the lines follow the list order. */
  lemma ExportSpec(tasks: seq<Task>, t: Task, iso: int -> string)
    ensures Export([], iso) == Header
    ensures Export(tasks + [t], iso) == Export(tasks, iso) + "\n" + Row(t, iso)
  {
    var lines := [Header] + seq(|tasks|, i requires 0 <= i < |tasks| => Row(tasks[i], iso));
    var more := tasks + [t];
    assert [Header] + seq(|more|, i requires 0 <= i < |more| => Row(more[i], iso)) == lines + [Row(t, iso)];
    JoinSnoc(lines, Row(t, iso), "\n");
  }

  /** A task's line starts with its uuid and the separator, then the type cell. */
  lemma RowStart(t: Task, iso: int -> string)
    ensures var c := if Contains(t.uuid, "TXT") then "Text" else "Image";
      t.uuid + "," + c + "," <= Row(t, iso)
  {
    var c := Cells(t, iso);
    assert Join(c, ",") == c[0] + "," + Join(c[1..], ",");
    assert Join(c[1..], ",") == c[1] + "," + Join(c[2..], ",");
  }

  /** A task's line has eight cells: the uuid, the type from the uuid, the prompt cell,
      which reads back as the task's text or its image prompt when it has no text, the
      status name, the progress, which reads back as the number when it is not negative, the video cell,
      which reads back as the urls joined by `;` as long as no url holds a quote, and the
      two date cells, empty exactly when the time is unset or has no ISO text. */
  lemma CellsSpec(t: Task, iso: int -> string)
    ensures var c := Cells(t, iso);
      |c| == 8 && c[0] == t.uuid
      && (c[1] == "Text" <==> Contains(t.uuid, "TXT")) && (c[1] == "Text" || c[1] == "Image")
      && Unquote(c[2]) == Some((if t.text != "" then t.text else t.prompt, ""))
      && c[3] == StatusName(t.status)
      && (t.progress >= 0 ==> DigitsValue(c[4]) == t.progress)
      && ((forall k :: 0 <= k < |t.videoUrls| ==> QuoteFree(t.videoUrls[k]))
          ==> Unquote(c[5]) == Some((Join(t.videoUrls, ";"), "")))
      && (c[6] == "" <==> t.createdAt == 0 || iso(t.createdAt) == "")
      && (c[7] == "" <==> t.completedAt == 0 || iso(t.completedAt) == "")
  {
    var s := if t.text != "" then t.text else t.prompt;
    QuoteRoundTrip(s, "");
    assert Quote(s) + "" == Quote(s);
    if t.progress >= 0 {
      NatToStringRoundTrip(t.progress);
    }
    if forall k :: 0 <= k < |t.videoUrls| ==> QuoteFree(t.videoUrls[k]) {
      VideoCellSpec(t, iso);
    }
  }

  predicate QuoteFree(s: string) {
    forall i :: 0 <= i < |s| ==> s[i] != '"'
  }

  lemma {:induction false} JoinQuoteFree(parts: seq<string>)
    requires forall k :: 0 <= k < |parts| ==> QuoteFree(parts[k])
    ensures QuoteFree(Join(parts, ";"))
  {
    if |parts| > 1 {
      JoinQuoteFree(parts[1..]);
      var j := parts[0] + ";" + Join(parts[1..], ";");
      forall i | 0 <= i < |j| ensures j[i] != '"' {
        if i < |parts[0]| {
        } else if i > |parts[0]| {
          assert j[i] == Join(parts[1..], ";")[i - |parts[0]| - 1];
        }
      }
    }
  }

  lemma VideoCellSpec(t: Task, iso: int -> string)
    requires forall k :: 0 <= k < |t.videoUrls| ==> QuoteFree(t.videoUrls[k])
    ensures Unquote(Cells(t, iso)[5]) == Some((Join(t.videoUrls, ";"), ""))
  {
    var j := Join(t.videoUrls, ";");
    JoinQuoteFree(t.videoUrls);
    EscapeNoQuote(j);
    QuoteRoundTrip(j, "");
    assert Quote(j) + "" == Cells(t, iso)[5];
  }
}
