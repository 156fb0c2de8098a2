/**
 * The guestbook API route in demo mode: the request validation of POST and
 * the process-wide in-memory list that GET, POST and DELETE work on when no
 * external store is configured.
 */
module GuestbookRoute {
  import opened Wrappers
  import opened JsString

  /** One guestbook submission; `createdAt` is the ISO-8601 time stamp of its creation. */
  datatype Entry = Entry(id: string, name: string, message: string, createdAt: string)

  /** The JSON responses of the fallback paths, one constructor per body shape. */
  datatype Response =
    | Listed(entries: seq<Entry>)   // 200, the array of entries
    | Created(entry: Entry)         // 201, the created entry
    | Deleted                       // 200, {success: true}
    | BadRequest(error: string)     // 400, {error}
    | NotFound(error: string)       // 404, {error}
  {
    function Status(): int
    {
      match this
      case Listed(_) => 200
      case Created(_) => 201
      case Deleted => 200
      case BadRequest(_) => 400
      case NotFound(_) => 404
    }
  }

  const MaxNameLength: nat := 100
  const MaxMessageLength: nat := 500

  const RequiredError := "Name and message are required."
  const NameTooLongError := "Name must be 100 characters or less."
  const MessageTooLongError := "Message must be 500 characters or less."
  const IdRequiredError := "Entry ID is required."
  const NotFoundError := "Entry not found."

  /** The entry the in-memory list starts with; its time stamp is taken when the module loads. */
  function DemoEntry(seededAt: string): Entry
  {
    Entry("demo-1", "Demo User",
          "Welcome to Marc's guestbook! Connect Supabase for persistent storage.", seededAt)
  }

  /** The id a fallback POST gives its entry: "demo-" followed by the decimal clock reading. */
  function DemoId(now: string): (id: string)
    ensures Truthy(Some(id))
  {
    "demo-" + now
  }

  /** Outcome of the POST validation cascade on the untrimmed body fields. */
  datatype Validation = Accepted(name: string, message: string) | Rejected(error: string)

  /**
   * The POST checks in source order: both fields truthy, then the name's
   * length, then the message's length. Lengths are JavaScript lengths of the
   * UNTRIMMED strings.
   */
  function Validate(name: Option<string>, message: Option<string>): (v: Validation)
    ensures v == Rejected(RequiredError) <==> !Truthy(name) || !Truthy(message)
    ensures v == Rejected(NameTooLongError) <==>
              Truthy(name) && Truthy(message) && Length(name.value) > MaxNameLength
    ensures v == Rejected(MessageTooLongError) <==>
              Truthy(name) && Truthy(message) && Length(name.value) <= MaxNameLength
              && Length(message.value) > MaxMessageLength
    ensures v.Accepted? <==>
              Truthy(name) && Truthy(message) && Length(name.value) <= MaxNameLength
              && Length(message.value) <= MaxMessageLength
    ensures v.Accepted? ==> name == Some(v.name) && message == Some(v.message)
  {
    if !Truthy(name) || !Truthy(message) then Rejected(RequiredError)
    else if Length(name.value) > MaxNameLength then Rejected(NameTooLongError)
    else if Length(message.value) > MaxMessageLength then Rejected(MessageTooLongError)
    else Accepted(name.value, message.value)
  }

  /** What every entry of the fallback list satisfies: a truthy id and names and messages within their bounds. */
  predicate WithinBounds(e: Entry)
  {
    e.id != "" && Length(e.name) <= MaxNameLength && Length(e.message) <= MaxMessageLength
  }

  predicate AllWithinBounds(entries: seq<Entry>)
  {
    forall k :: 0 <= k < |entries| ==> WithinBounds(entries[k])
  }

  // The demo entry's bounds, one field per lemma, so that each proof unfolds
  // one literal string only.
  lemma DemoNameWithinBounds(seededAt: string)
    ensures Length(DemoEntry(seededAt).name) <= MaxNameLength
  {
    LengthBounds(DemoEntry(seededAt).name);
  }

  lemma DemoMessageWithinBounds(seededAt: string)
    ensures Length(DemoEntry(seededAt).message) <= MaxMessageLength
  {
    LengthBounds(DemoEntry(seededAt).message);
  }

  lemma DemoEntryWithinBounds(seededAt: string)
    ensures WithinBounds(DemoEntry(seededAt))
  {
    DemoNameWithinBounds(seededAt);
    DemoMessageWithinBounds(seededAt);
  }

  /** The entry a successful fallback POST stores: the trimmed fields, the given id and time stamp. */
  function NewEntry(v: Validation, id: string, createdAt: string): Entry
    requires v.Accepted?
  {
    Entry(id, Trim(v.name), Trim(v.message), createdAt)
  }

  /** Trimming after the length checks keeps an accepted submission within the bounds. */
  lemma AcceptedWithinBounds(name: Option<string>, message: Option<string>, now: string, createdAt: string)
    requires Validate(name, message).Accepted?
    ensures WithinBounds(NewEntry(Validate(name, message), DemoId(now), createdAt))
  {
    var v := Validate(name, message);
    TrimShrinks(v.name);
    TrimShrinks(v.message);
  }

  /**
   * Emptiness is checked before trimming: a name made only of whitespace is
   * accepted and stored as the empty string.
   */
  lemma WhitespaceNameStoredEmpty(name: string, message: Option<string>)
    requires name != [] && AllWhitespace(name) && Length(name) <= MaxNameLength
    requires Truthy(message) && Length(message.value) <= MaxMessageLength
    ensures Validate(Some(name), message).Accepted?
    ensures Trim(Validate(Some(name), message).name) == ""
  {
    TrimEmpty(name);
  }

  /**
   * Length is checked before trimming: a name of 100 letters with one
   * leading space is refused although its trimmed form is 100 long.
   */
  lemma PaddedNameRejected(message: Option<string>)
    requires Truthy(message)
    ensures var name := [' '] + seq(100, _ => 'a');
            Length(Trim(name)) == MaxNameLength
            && Validate(Some(name), message) == Rejected(NameTooLongError)
  {
    var letters := seq(100, _ => 'a');
    var name := [' '] + letters;
    LengthOfBmp(letters);
    assert TrimStart(name) == letters by {
      assert name[1..] == letters;
      assert !IsWhitespace(letters[0]);
    }
    assert TrimEnd(letters) == letters by {
      assert !IsWhitespace(letters[99]);
    }
    LengthAppend([' '], letters);
  }

  /** The name bound is inclusive: a name of exactly 100 code units passes the name check. */
  lemma NameOfMaxLengthAccepted(message: Option<string>)
    requires Truthy(message) && Length(message.value) <= MaxMessageLength
    ensures Validate(Some(seq(100, _ => 'a')), message).Accepted?
  {
    LengthOfBmp(seq(100, _ => 'a'));
  }

  /**
   * `Array.prototype.findIndex` on ids: the position of the first entry
   * with the given id, or -1 when there is none.
   */
  function FindIndex(entries: seq<Entry>, id: string): (r: int)
    ensures -1 <= r < |entries|
    ensures r == -1 <==> forall k :: 0 <= k < |entries| ==> entries[k].id != id
    ensures r >= 0 ==> entries[r].id == id && forall k :: 0 <= k < r ==> entries[k].id != id
  {
    if entries == [] then -1
    else if entries[0].id == id then 0
    else
      var r := FindIndex(entries[1..], id);
      if r == -1 then -1 else r + 1
  }

  /** `splice(i, 1)`: removes the entry at `i` and keeps the others in order. */
  function Splice(entries: seq<Entry>, i: nat): (r: seq<Entry>)
    requires i < |entries|
    ensures |r| == |entries| - 1
    ensures r[..i] == entries[..i] && r[i..] == entries[i + 1..]
    ensures multiset(r) + multiset{entries[i]} == multiset(entries)
  {
    assert entries == entries[..i] + [entries[i]] + entries[i + 1..];
    entries[..i] + entries[i + 1..]
  }

  /** Deleting the id of the entry just prepended removes that entry and restores the list. */
  lemma {:induction false} PrependThenDelete(entries: seq<Entry>, e: Entry)
    ensures FindIndex([e] + entries, e.id) == 0
    ensures Splice([e] + entries, 0) == entries
  {
  }

  /**
   * Ids are not guaranteed unique; a delete only removes the first entry
   * with the id, so a later entry with the same id survives it.
   */
  lemma DeleteKeepsLaterDuplicate(entries: seq<Entry>, i: nat, j: nat)
    requires i < j < |entries| && entries[i].id == entries[j].id
    ensures var k := FindIndex(entries, entries[j].id);
            0 <= k <= i && Splice(entries, k)[j - 1] == entries[j]
  {
    var k := FindIndex(entries, entries[j].id);
    var r := Splice(entries, k);
    assert r[k..][j - 1 - k] == entries[k + 1..][j - 1 - k];
  }

  /** Prepending an entry within bounds keeps the whole list within bounds. */
  lemma PrependWithinBounds(e: Entry, entries: seq<Entry>)
    requires WithinBounds(e) && AllWithinBounds(entries)
    ensures AllWithinBounds([e] + entries)
  {
    forall k | 0 <= k < |entries| + 1 ensures WithinBounds(([e] + entries)[k]) {
      if k > 0 { assert ([e] + entries)[k] == entries[k - 1]; }
    }
  }

  /** Splicing keeps every remaining entry within bounds. */
  lemma SpliceWithinBounds(entries: seq<Entry>, i: nat)
    requires i < |entries|
    requires AllWithinBounds(entries)
    ensures AllWithinBounds(Splice(entries, i))
  {
    var r := Splice(entries, i);
    forall k | 0 <= k < |r| ensures WithinBounds(r[k]) {
      if k < i {
        assert r[..i][k] == entries[..i][k];
      } else {
        assert r[i..][k - i] == entries[i + 1..][k - i];
      }
    }
  }

  /** The module-level `fallbackEntries` list and the three handlers that use it. */
  class FallbackStore {
    var entries: seq<Entry>

    ghost predicate Valid()
      reads this
    {
      AllWithinBounds(entries)
    }

    /** The list as the module creates it: the demo entry alone. */
    constructor (seededAt: string)
      ensures Valid()
      ensures entries == [DemoEntry(seededAt)]
    {
      entries := [DemoEntry(seededAt)];
      new;
      DemoEntryWithinBounds(seededAt);
      assert AllWithinBounds([DemoEntry(seededAt)]);
    }

    /** GET: the list as it is, newest first; nothing changes. */
    method Get() returns (r: Response)
      ensures r == Listed(entries) && r.Status() == 200
    {
      r := Listed(entries);
    }

    /**
     * POST with the parsed body fields; `now` and `createdAt` are the clock
     * readings the handler takes. A refused body leaves the list alone; an
     * accepted one is prepended, trimmed, and returned with status 201.
     */
    method Post(name: Option<string>, message: Option<string>, now: string, createdAt: string)
      returns (r: Response)
      requires Valid()
      modifies this
      ensures Valid()
      ensures var v := Validate(name, message);
              (v.Rejected? ==> r == BadRequest(v.error) && r.Status() == 400 && entries == old(entries))
              && (v.Accepted? ==>
                    r == Created(NewEntry(v, DemoId(now), createdAt))
                    && r.Status() == 201
                    && entries == [r.entry] + old(entries))
    {
      var v := Validate(name, message);
      match v
      case Rejected(error) =>
        r := BadRequest(error);
      case Accepted(n, m) =>
        var e := NewEntry(v, DemoId(now), createdAt);
        AcceptedWithinBounds(name, message, now, createdAt);
        PrependWithinBounds(e, entries);
        entries := [e] + entries;
        r := Created(e);
    }

    /**
     * DELETE with the `id` query parameter: a missing or empty id is a 400,
     * an id no entry has is a 404, and otherwise the first entry with that
     * id is removed.
     */
    method Delete(id: Option<string>) returns (r: Response)
      requires Valid()
      modifies this
      ensures Valid()
      ensures !Truthy(id) ==> r == BadRequest(IdRequiredError) && entries == old(entries)
      ensures Truthy(id) ==>
                var k := FindIndex(old(entries), id.value);
                (k == -1 ==> r == NotFound(NotFoundError) && entries == old(entries))
                && (k >= 0 ==> r == Deleted && entries == Splice(old(entries), k))
    {
      if !Truthy(id) {
        return BadRequest(IdRequiredError);
      }
      var index := FindIndex(entries, id.value);
      if index == -1 {
        return NotFound(NotFoundError);
      }
      SpliceWithinBounds(entries, index);
      entries := Splice(entries, index);
      r := Deleted;
    }
  }

  /**
   * A submission whose fields are short, free of supplementary-plane
   * characters and already trimmed is accepted and stored unchanged.
   */
  lemma PlainSubmission(name: string, message: string)
    requires 0 < |name| <= MaxNameLength && 0 < |message| <= MaxMessageLength
    requires forall k :: 0 <= k < |name| ==> name[k] as int <= 0xFFFF
    requires forall k :: 0 <= k < |message| ==> message[k] as int <= 0xFFFF
    requires !IsWhitespace(name[0]) && !IsWhitespace(name[|name| - 1])
    requires !IsWhitespace(message[0]) && !IsWhitespace(message[|message| - 1])
    ensures Validate(Some(name), Some(message)) == Accepted(name, message)
    ensures Trim(name) == name && Trim(message) == message
  {
    LengthOfBmp(name);
    LengthOfBmp(message);
    TrimFixed(name);
    TrimFixed(message);
  }

  /**
   * A fresh store, a POST of {name: "Ana", message: "Hi!"}, a GET, a DELETE
   * of the new id and another GET.
   */
  method AnaScenario(seededAt: string, now: string, createdAt: string)
    returns (created: Response, afterPost: Response, deleted: Response, afterDelete: Response)
    ensures created == Created(Entry(DemoId(now), "Ana", "Hi!", createdAt))
    ensures afterPost == Listed([created.entry, DemoEntry(seededAt)])
    ensures deleted == Deleted
    ensures afterDelete == Listed([DemoEntry(seededAt)])
  {
    var store := new FallbackStore(seededAt);
    PlainSubmission("Ana", "Hi!");
    created := store.Post(Some("Ana"), Some("Hi!"), now, createdAt);
    afterPost := store.Get();
    deleted := store.Delete(Some(DemoId(now)));
    PrependThenDelete([DemoEntry(seededAt)], created.entry);
    afterDelete := store.Get();
  }
}
