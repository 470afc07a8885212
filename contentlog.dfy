/** The content script's `Logger`: entries are appended oldest first, and once there
    are more than 500 only the newest 400 are kept. */
module ContentLog {

  const MaxLogs: nat := 500
  /** `Math.floor(MAX_LOGS * 0.8)`. */
  const KeptLogs: nat := 400
  const MaxDataLength: nat := 300

  /** One entry; `data` is the already serialised payload, and the time stamp is not
      modelled. */
  datatype Entry = Entry(kind: string, message: string, data: string)

  /** The data cut to 300 characters plus `...`, the message to 200 characters. */
  function MakeEntry(kind: string, message: string, data: string): (e: Entry)
    ensures e.kind == kind
    ensures e.message == message[..if |message| < 200 then |message| else 200]
    ensures |data| <= MaxDataLength ==> e.data == data
    ensures |data| > MaxDataLength ==> e.data == data[..MaxDataLength] + "..."
  {
    Entry(kind, if |message| > 200 then message[..200] else message,
          if |data| > MaxDataLength then data[..MaxDataLength] + "..." else data)
  }

  /** `logs.push(entry)`, then `logs.slice(-400)` once there are more than 500. */
  function Appended(logs: seq<Entry>, e: Entry): seq<Entry> {
    var l := logs + [e];
    if |l| > MaxLogs then l[|l| - KeptLogs..] else l
  }

  /** The new entry is the last one, the kept entries are the newest ones in their order,
      and a log within the bound stays within it: it grows by one until it holds 500 and
      drops back to 400 on the next entry. */
  lemma AppendedSpec(logs: seq<Entry>, e: Entry)
    ensures var r := Appended(logs, e);
      |r| >= 1 && r[|r| - 1] == e && r[..|r| - 1] == logs[|logs| - (|r| - 1)..]
      && (|logs| < MaxLogs ==> r == logs + [e])
      && (|logs| == MaxLogs ==> |r| == KeptLogs)
      && (|logs| <= MaxLogs ==> |r| <= MaxLogs)
  {
    var l := logs + [e];
    var r := Appended(logs, e);
    if |l| > MaxLogs {
      assert r[..|r| - 1] == l[|l| - KeptLogs..|l| - 1];
    }
  }

  /** The log buffer. */
  class Logger {
    var logs: seq<Entry>

    constructor()
      ensures logs == []
    {
      logs := [];
    }

    /** `log`: builds the entry and appends it. */
    method Log(kind: string, message: string, data: string)
      modifies this
      ensures logs == Appended(old(logs), MakeEntry(kind, message, data))
    {
      var entry := MakeEntry(kind, message, data);
      logs := logs + [entry];
      if |logs| > MaxLogs {
        logs := logs[|logs| - KeptLogs..];
      }
    }

    /** `export`: a copy of the entries. */
    method Export() returns (r: seq<Entry>)
      ensures r == logs
    {
      r := logs;
    }

    /** `clear`. */
    method Clear()
      modifies this
      ensures logs == []
    {
      logs := [];
    }
  }
}
