/** The activity collection and the three routes that change or list it:
    recording a batch, querying by user, time range and type, and deleting
    by user and time range. */
module Store {
  import opened Wrappers
  import opened Strings
  import opened Numbers
  import opened Seqs
  import opened Event
  import opened Http

  /** `parseInt(x) || d`: a missing, unparsable or zero number gives `d`. */
  function IntOr(n: Option<int>, d: int): (r: int)
    ensures n.Some? && n.value != 0 ==> r == n.value
    ensures n.None? || n.value == 0 ==> r == d
  {
    if n.Some? && n.value != 0 then n.value else d
  }

  /** The number of documents `.limit(n)` returns at most: a negative limit
      counts by its magnitude. */
  function ResultLimit(limit: Option<int>): nat
  {
    Abs(IntOr(limit, 100))
  }

  /** The query object the routes build: the username always, an inclusive
      lower and upper bound on the timestamp when given, and an event type
      when given. An empty query-string value counts as not given. */
  datatype Selector = Selector(username: string, from: Option<int>, to: Option<int>, kind: Option<string>)

  predicate Selects(q: Selector, a: Activity)
  {
    a.username == q.username &&
    (q.from.Some? ==> q.from.value <= a.timestamp) &&
    (q.to.Some? ==> a.timestamp <= q.to.value) &&
    (q.kind.Some? ==> KindName(a.kind) == q.kind.value)
  }

  /** The records a query object matches, in collection order. */
  function Select(s: seq<Activity>, q: Selector): (r: seq<Activity>)
    ensures forall a :: a in r <==> a in s && Selects(q, a)
  {
    Filter(s, a => Selects(q, a))
  }

  /** The records a query object does not match, in collection order. */
  function Unselected(s: seq<Activity>, q: Selector): (r: seq<Activity>)
    ensures forall a :: a in r <==> a in s && !Selects(q, a)
  {
    Filter(s, a => !Selects(q, a))
  }

  /** The matched and the unmatched records together are the collection. */
  lemma SelectPartition(s: seq<Activity>, q: Selector)
    ensures multiset(Select(s, q)) + multiset(Unselected(s, q)) == multiset(s)
    ensures |Select(s, q)| + |Unselected(s, q)| == |s|
  {
    FilterSplit(s, a => Selects(q, a), a => !Selects(q, a));
  }

  /** Newest first (`sort({ timestamp: -1 })`). */
  function Newest(a: Activity): int
  {
    a.timestamp
  }

  /** A document with the server's user id and username written over the
      client's. */
  function Stamp(raw: RawActivity, user: UserId, username: string): RawActivity
  {
    raw.(user := Some(user), username := Some(username))
  }

  function StampAll(batch: seq<RawActivity>, user: UserId, username: string): (r: seq<RawActivity>)
    ensures |r| == |batch|
    ensures forall i :: 0 <= i < |batch| ==> r[i] == Stamp(batch[i], user, username)
  {
    seq(|batch|, i requires 0 <= i < |batch| => Stamp(batch[i], user, username))
  }

  /** `insertMany`'s validation of a whole batch: all the records, or none
      when any document is invalid. */
  function ValidateAll(batch: seq<RawActivity>): (r: Option<seq<Activity>>)
    ensures r.Some? <==> forall i :: 0 <= i < |batch| ==> Validate(batch[i]).Ok?
    ensures r.Some? ==> |r.value| == |batch|
    ensures r.Some? ==> forall i :: 0 <= i < |batch| ==> Validate(batch[i]) == Ok(r.value[i])
  {
    if batch == [] then Some([])
    else
      var first := Validate(batch[0]);
      var rest := ValidateAll(batch[1..]);
      if first.Err? || rest.None? then None
      else Some([first.value] + rest.value)
  }

  /** The stamped batch passes validation exactly when every stamped document does. */
  lemma StampedBatchValid(batch: seq<RawActivity>, user: UserId, username: string)
    ensures ValidateAll(StampAll(batch, user, username)).Some? <==>
      forall raw :: raw in batch ==> Validate(Stamp(raw, user, username)).Ok?
  {
    var stamped := StampAll(batch, user, username);
    if forall raw :: raw in batch ==> Validate(Stamp(raw, user, username)).Ok? {
      forall i | 0 <= i < |batch| ensures Validate(stamped[i]).Ok? {
        assert batch[i] in batch;
      }
    } else {
      var raw :| raw in batch && !Validate(Stamp(raw, user, username)).Ok?;
      var i :| 0 <= i < |batch| && batch[i] == raw;
      assert !Validate(stamped[i]).Ok?;
    }
  }

  /** Appending validated records keeps the old ones and adds one record
      per stamped document, in order. */
  lemma AppendStamped(before: seq<Activity>, added: seq<Activity>, batch: seq<RawActivity>, user: UserId, username: string)
    requires |added| == |batch|
    requires forall i :: 0 <= i < |batch| ==> Validate(StampAll(batch, user, username)[i]) == Ok(added[i])
    ensures |before + added| == |before| + |batch|
    ensures (before + added)[..|before|] == before
    ensures forall i :: 0 <= i < |batch| ==> ToRaw((before + added)[|before| + i]) == Stamp(batch[i], user, username)
  {
    assert (before + added)[..|before|] == before;
    forall i | 0 <= i < |batch| ensures ToRaw((before + added)[|before| + i]) == Stamp(batch[i], user, username) {
      assert (before + added)[|before| + i] == added[i];
      assert Validate(StampAll(batch, user, username)[i]) == Ok(added[i]);
    }
  }

  class ActivityStore {
    var records: seq<Activity>

    constructor()
      ensures records == []
    {
      records := [];
    }

    /** POST /: record a batch for a registered user. */
    method Record(username: string, activities: Option<seq<RawActivity>>, users: map<string, UserId>)
      returns (reply: Reply<string>)
      modifies this
      ensures username == "" || activities.None? ==>
        reply == Failure(400, "Username and activities array are required") && records == old(records)
      ensures username != "" && activities.Some? && username !in users ==>
        reply == Failure(404, "User not found") && records == old(records)
      ensures reply.Success? <==>
        username != "" && activities.Some? && username in users &&
        forall raw :: raw in activities.value ==> Validate(Stamp(raw, users[username], username)).Ok?
      ensures reply.Success? ==>
        var batch := activities.value;
        reply == Success(201, NatToString(|batch|) + " activities recorded successfully") &&
        |records| == |old(records)| + |batch| && records[..|old(records)|] == old(records) &&
        forall i :: 0 <= i < |batch| ==>
          ToRaw(records[|old(records)| + i]) == Stamp(batch[i], users[username], username)
      ensures username != "" && activities.Some? && username in users && !reply.Success? ==>
        reply == Failure(500, "Failed to record activities")
      ensures reply.Failure? && reply.status == 500 ==>
        reply.message == "Failed to record activities" && records == old(records)
      ensures reply.Failure? ==> records == old(records)
    {
      if username == "" || activities.None? {
        return Failure(400, "Username and activities array are required");
      }
      if username !in users {
        return Failure(404, "User not found");
      }
      var batch := activities.value;
      var valid := ValidateAll(StampAll(batch, users[username], username));
      StampedBatchValid(batch, users[username], username);
      if valid.None? {
        return Failure(500, "Failed to record activities");
      }
      AppendStamped(records, valid.value, batch, users[username], username);
      records := records + valid.value;
      reply := Success(201, NatToString(|batch|) + " activities recorded successfully");
    }

    /** GET /: the user's records matching the optional time range and type,
        newest first, at most `parseInt(limit) || 100` of them. */
    method Find(username: string, from: Option<int>, to: Option<int>, kind: Option<string>, limit: Option<int>)
      returns (reply: Reply<seq<Activity>>)
      ensures username == "" ==> reply == Failure(400, "Username is required")
      ensures username != "" ==>
        var q := Selector(username, from, to, kind);
        reply == Success(200, Take(SortBy(Select(records, q), Newest), ResultLimit(limit)))
    {
      if username == "" {
        return Failure(400, "Username is required");
      }
      var q := Selector(username, from, to, kind);
      reply := Success(200, Take(SortBy(Select(records, q), Newest), ResultLimit(limit)));
    }

    /** DELETE /: remove the user's records in the optional time range. */
    method Delete(username: string, from: Option<int>, to: Option<int>) returns (reply: Reply<string>)
      modifies this
      ensures username == "" ==> reply == Failure(400, "Username is required") && records == old(records)
      ensures username != "" ==>
        var q := Selector(username, from, to, None);
        records == Unselected(old(records), q) &&
        reply == Success(200, NatToString(|Select(old(records), q)|) + " activities deleted successfully")
    {
      if username == "" {
        return Failure(400, "Username is required");
      }
      var q := Selector(username, from, to, None);
      var deleted := |Select(records, q)|;
      records := Unselected(records, q);
      reply := Success(200, NatToString(deleted) + " activities deleted successfully");
    }
  }

  /** What a query returns: only matching records, newest first, as many as
      match up to the limit, and no matching record left out is newer than
      one returned. */
  lemma QueryResult(s: seq<Activity>, q: Selector, n: nat)
    ensures var found := Take(SortBy(Select(s, q), Newest), n);
      |found| == Min(n, |Select(s, q)|) &&
      (forall a :: a in found ==> a in s && Selects(q, a)) &&
      (forall i, j :: 0 <= i < j < |found| ==> found[i].timestamp >= found[j].timestamp) &&
      (forall a, b :: a in Select(s, q) && a !in found && b in found ==> a.timestamp <= b.timestamp)
  {
    var sorted := SortBy(Select(s, q), Newest);
    var found := Take(sorted, n);
    SortMembers(Select(s, q), Newest);
    assert forall k :: 0 <= k < |found| ==> found[k] == sorted[k];
    forall a | a in found ensures a in s && Selects(q, a) {
      var i :| 0 <= i < |found| && found[i] == a;
      assert sorted[i] == a;
    }
    forall a, b | a in Select(s, q) && a !in found && b in found ensures a.timestamp <= b.timestamp {
      var j :| 0 <= j < |sorted| && sorted[j] == a;
      var i :| 0 <= i < |found| && found[i] == b;
      assert sorted[i] == b;
    }
  }

  /** A delete removes exactly the matching records: the count it reports is
      the number removed, every unmatched record is kept, and nothing
      matching is left. */
  lemma DeleteResult(s: seq<Activity>, q: Selector)
    ensures |Select(s, q)| == |s| - |Unselected(s, q)|
    ensures forall a :: a in s && !Selects(q, a) ==> a in Unselected(s, q)
    ensures multiset(Unselected(s, q)) == multiset(s) - multiset(Select(s, q))
    ensures forall a :: a !in Select(Unselected(s, q), q)
  {
    SelectPartition(s, q);
  }
}
