/**
 * The file-backed server variant: every entry lives in one JSON document,
 * newest first. Adding an entry reads the whole list, inserts the new entry
 * at the front and writes the whole list back.
 */
module FileBackend {
  import opened Wrappers
  import opened Text
  import opened Seqs
  import opened Guestbook

  /** The data file as the server finds it: absent, not parseable as JSON, or a JSON list of entries. */
  datatype DataFile = Missing | Malformed | Json(entries: seq<Entry>)

  /** The list the server works with: a missing or unparseable file reads as no entries. */
  function ReadEntries(f: DataFile): (r: seq<Entry>)
    ensures f.Missing? || f.Malformed? ==> r == []
    ensures f.Json? ==> r == f.entries
  {
    match f
    case Json(entries) => entries
    case _ => []
  }

  /** The entry built from an accepted submission; id and timestamp come from the clock. */
  function NewEntry(s: Submission, id: int, createdAt: string): Entry {
    Entry(id, s.name, s.message, createdAt)
  }

  /**
   * What one POST does to the data file and what it answers: a blank
   * message is refused before the file is touched; otherwise the new entry
   * goes in front of the list read back and the whole list is written.
   */
  function Post(f: DataFile, req: Request, id: int, createdAt: string): (r: (Response<Entry>, DataFile))
    ensures !r.0.ServerError?
    ensures r.0.Created? <==> !IsBlank(RawMessage(req))
    ensures r.0.BadRequest? ==> r.0.error == MessageRequired && r.1 == f
    ensures r.0.Created? ==> WellFormed(r.0.body) && r.0.body.id == id && r.0.body.createdAt == createdAt
    ensures r.0.Created? ==> r.1.Json? && ReadEntries(r.1) == [r.0.body] + ReadEntries(f)
  {
    match Validate(req)
    case Failure(e) => (BadRequest(e), f)
    case Success(s) => (Created(NewEntry(s, id, createdAt)), Json([NewEntry(s, id, createdAt)] + ReadEntries(f)))
  }

  /** The state the server reads and writes: the content of data/entries.json. */
  class EntryFile {
    var file: DataFile

    constructor (initial: DataFile)
      ensures file == initial
    {
      file := initial;
    }

    /** Serialises the whole list over the previous content of the file. */
    method WriteEntries(entries: seq<Entry>)
      modifies this
      ensures file == Json(entries)
    {
      file := Json(entries);
    }

    /** GET /api/entries: the stored list, untouched; nothing is written. */
    method GetEntries() returns (entries: seq<Entry>)
      ensures entries == ReadEntries(file)
      ensures file.Json? ==> entries == file.entries
      ensures !file.Json? ==> entries == []
    {
      entries := ReadEntries(file);
    }

    /** POST /api/entries, with the clock's id and ISO timestamp as parameters. */
    method AddEntry(req: Request, id: int, createdAt: string) returns (resp: Response<Entry>)
      modifies this
      ensures (resp, file) == Post(old(file), req, id, createdAt)
      ensures IsBlank(RawMessage(req)) ==> resp == BadRequest(MessageRequired) && file == old(file)
      ensures !IsBlank(RawMessage(req)) ==>
        resp.Created? && file == Json([resp.body] + ReadEntries(old(file)))
    {
      var v := Validate(req);
      if v.Failure? {
        return BadRequest(v.error);
      }
      var newEntry := NewEntry(v.value, id, createdAt);
      var entries := ReadEntries(file);
      entries := [newEntry] + entries;
      WriteEntries(entries);
      resp := Created(newEntry);
    }
  }

  /** A refused POST answers 400 "Message is required" and leaves the file exactly as it was. */
  lemma {:induction false} PostRejectsBlank(f: DataFile, req: Request, id: int, createdAt: string)
    ensures var (resp, f') := Post(f, req, id, createdAt);
      (resp.Status() == 400 <==> IsBlank(RawMessage(req))) &&
      (resp.Status() == 400 ==> resp == BadRequest(MessageRequired) && f' == f)
  {
  }

  /**
   * An accepted POST answers 201 with the entry it stored: the given id and
   * timestamp, the trimmed message, and the trimmed name or "Anonymous" when
   * the key was absent. The list read back afterwards is that entry followed
   * by the old list, unchanged and in order.
   */
  lemma {:induction false} PostPrepends(f: DataFile, req: Request, id: int, createdAt: string)
    requires !IsBlank(RawMessage(req))
    ensures var (resp, f') := Post(f, req, id, createdAt);
      resp.Status() == 201 &&
      resp.body.id == id && resp.body.createdAt == createdAt &&
      resp.body.message == Strip(RawMessage(req), PythonWhitespace) &&
      resp.body.name == (if req.name.None? then DefaultName else Strip(req.name.value, PythonWhitespace)) &&
      ReadEntries(f') == [resp.body] + ReadEntries(f) &&
      |ReadEntries(f')| == |ReadEntries(f)| + 1
  {
  }

  /** A POST keeps every listed entry well formed if they all were. */
  lemma {:induction false} PostKeepsWellFormed(f: DataFile, req: Request, id: int, createdAt: string)
    requires forall k :: 0 <= k < |ReadEntries(f)| ==> WellFormed(ReadEntries(f)[k])
    ensures var f' := Post(f, req, id, createdAt).1;
      forall k :: 0 <= k < |ReadEntries(f')| ==> WellFormed(ReadEntries(f')[k])
  {
  }

  /** One POST as the server receives it, with the clock readings it takes. */
  datatype Call = Call(req: Request, id: int, createdAt: string)

  /** The file after the calls, in order. */
  function Replay(f: DataFile, calls: seq<Call>): DataFile
    decreases |calls|
  {
    if calls == [] then f
    else
      var last := calls[|calls| - 1];
      Post(Replay(f, calls[..|calls| - 1]), last.req, last.id, last.createdAt).1
  }

  /** The entry a call stores, or None when its request is refused. */
  function Stored(c: Call): (r: Option<Entry>)
    ensures r.None? <==> IsBlank(RawMessage(c.req))
  {
    match Validate(c.req)
    case Success(s) => Some(NewEntry(s, c.id, c.createdAt))
    case Failure(_) => None
  }

  /** The entries the accepted calls create, oldest first. */
  function Accepted(calls: seq<Call>): seq<Entry>
    decreases |calls|
  {
    if calls == [] then []
    else
      Accepted(calls[..|calls| - 1]) + Added(calls[|calls| - 1])
  }

  /** The entries one call adds: its stored entry, or nothing when refused. */
  function Added(c: Call): seq<Entry> {
    if Stored(c).Some? then [Stored(c).value] else []
  }

  /** The last call of a run puts its entry, if any, in front of the list the earlier calls left. */
  lemma {:induction false} ReplayLast(f: DataFile, calls: seq<Call>)
    requires calls != []
    ensures ReadEntries(Replay(f, calls)) ==
      Added(calls[|calls| - 1]) + ReadEntries(Replay(f, calls[..|calls| - 1]))
  {
    var last := calls[|calls| - 1];
    var prev := Replay(f, calls[..|calls| - 1]);
    assert Replay(f, calls) == Post(prev, last.req, last.id, last.createdAt).1;
    match Validate(last.req)
    case Success(s) =>
    case Failure(_) =>
      assert [] + ReadEntries(prev) == ReadEntries(prev);
  }

  /**
   * After any run of POSTs the list holds the accepted entries newest first,
   * above whatever the file held before; refused calls leave no trace.
   */
  lemma {:induction false} ReplayNewestFirst(f: DataFile, calls: seq<Call>)
    ensures ReadEntries(Replay(f, calls)) == Reverse(Accepted(calls)) + ReadEntries(f)
    decreases |calls|
  {
    if calls != [] {
      var init, last := calls[..|calls| - 1], calls[|calls| - 1];
      ReplayNewestFirst(f, init);
      ReplayLast(f, calls);
      assert Accepted(calls) == Accepted(init) + Added(last);
      ReverseAppendAdded(Accepted(init), Added(last));
      AppendAssoc(Added(last), Reverse(Accepted(init)), ReadEntries(f));
      calc {
        ReadEntries(Replay(f, calls));
        Added(last) + ReadEntries(Replay(f, init));
        Added(last) + (Reverse(Accepted(init)) + ReadEntries(f));
        (Added(last) + Reverse(Accepted(init))) + ReadEntries(f);
        Reverse(Accepted(calls)) + ReadEntries(f);
      }
    }
  }

  /** Reversal of a sequence extended by at most one element. */
  lemma {:induction false} ReverseAppendAdded(s: seq<Entry>, t: seq<Entry>)
    requires |t| <= 1
    ensures Reverse(s + t) == t + Reverse(s)
  {
    if t == [] {
      assert s + t == s;
    } else {
      assert t == [t[0]];
      ReverseSnoc(s, t[0]);
    }
  }

  /**
   * Ids come from the clock and are not checked: two POSTs in the same
   * millisecond store two entries with the same id.
   */
  lemma {:induction false} SameMillisecondSharesId(f: DataFile, a: Request, b: Request, id: int, createdAt: string)
    requires !IsBlank(RawMessage(a)) && !IsBlank(RawMessage(b))
    ensures var listed := ReadEntries(Post(Post(f, a, id, createdAt).1, b, id, createdAt).1);
      |listed| >= 2 && listed[0].id == listed[1].id == id
  {
  }
}
