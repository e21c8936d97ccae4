/** The in-memory persist route: two module-level variables, the stored document and the time
    it was stored, overwritten by POST and read by GET. */
module PersistRoute {
  import opened Common

  /** The two module variables. Both start as null. */
  datatype Store = Store(storedData: Json, lastUpdated: Json)

  const EMPTY: Store := Store(JNull, JNull)

  datatype PersistResponse =
    | Persisted(timestamp: Json)        // 200, 'Data persisted successfully'
    | NoData                            // 400, 'No data provided'
    | NotAvailable                      // 404, 'No data available'
    | Loaded(data: Json, timestamp: Json) // 200 with the stored document
    | Failed                            // 500: the body is not JSON, or it is null

  /** POST on the state st with a request body (None when `request.json()` throws) at the time
      `now`: the new state and the response. */
  function PostStep(st: Store, body: Option<Json>, now: string): (Store, PersistResponse)
  {
    if body.None? then (st, Failed)
    else
      match (Member(body.value, "data"), Member(body.value, "timestamp"))
      case (Some(data), Some(timestamp)) =>
        if !Truthy(data) then (st, NoData)
        else
          var updated := if Truthy(timestamp) then timestamp else JStr(now);
          (Store(data, updated), Persisted(updated))
      case _ => (st, Failed)
  }

  /** GET on the state st. */
  function GetStep(st: Store): PersistResponse
  {
    if !Truthy(st.storedData) then NotAvailable else Loaded(st.storedData, st.lastUpdated)
  }

  /** A POST is accepted exactly when the body parses to a value whose `data` is truthy. */
  predicate Accepted(body: Option<Json>)
  {
    body.Some? && Member(body.value, "data").Some? && Truthy(Member(body.value, "data").value)
  }

  /** The timestamp an accepted POST stores: the body's, or now when that is falsy. */
  function StampOf(body: Option<Json>, now: string): Json
    requires Accepted(body)
  {
    var t := Member(body.value, "timestamp").value;
    if Truthy(t) then t else JStr(now)
  }

  /** A POST either succeeds and overwrites both variables, or leaves the state as it was:
      400 when the body's `data` is falsy, 500 when the body cannot be read. */
  lemma PostOutcome(st: Store, body: Option<Json>, now: string)
    ensures var (st', r) := PostStep(st, body, now);
      && (r.Persisted? <==> Accepted(body))
      && (r.NoData? <==> body.Some? && Member(body.value, "data").Some? && !Truthy(Member(body.value, "data").value))
      && (r.Failed? <==> body.None? || Member(body.value, "data").None?)
      && (!r.Persisted? ==> st' == st)
      && (r.Persisted? ==> st' == Store(Member(body.value, "data").value, StampOf(body, now)) && r.timestamp == st'.lastUpdated)
  {
    if body.Some? {
      assert Member(body.value, "data").None? <==> Member(body.value, "timestamp").None?;
    }
  }

  /** The stored timestamp is never falsy after an accepted POST: the body's, or the time now. */
  lemma AcceptedStamp(st: Store, body: Option<Json>, now: string)
    requires Accepted(body) && now != ""
    ensures Truthy(PostStep(st, body, now).0.lastUpdated)
  {
  }

  /** The state after a sequence of POSTs, each with its body and its time. */
  function Replay(st: Store, posts: seq<(Option<Json>, string)>): Store
  {
    if |posts| == 0 then st
    else
      var last := posts[|posts| - 1];
      PostStep(Replay(st, posts[..|posts| - 1]), last.0, last.1).0
  }

  /** The data and timestamp of the last accepted POST, found by searching from the end. */
  function LastAccepted(posts: seq<(Option<Json>, string)>): Option<(Json, Json)>
  {
    if |posts| == 0 then None
    else
      var last := posts[|posts| - 1];
      if Accepted(last.0) then Some((Member(last.0.value, "data").value, StampOf(last.0, last.1)))
      else LastAccepted(posts[..|posts| - 1])
  }

  /** Last write wins: after any sequence of POSTs on the empty store, GET answers 404 when none
      was accepted, and otherwise the data and timestamp of the last accepted one. */
  lemma {:induction false} LastWriteWins(posts: seq<(Option<Json>, string)>)
    ensures GetStep(Replay(EMPTY, posts)) ==
      match LastAccepted(posts)
      case None => NotAvailable
      case Some((d, t)) => Loaded(d, t)
  {
    if |posts| > 0 {
      var init := posts[..|posts| - 1];
      var last := posts[|posts| - 1];
      LastWriteWins(init);
      PostOutcome(Replay(EMPTY, init), last.0, last.1);
    }
  }

  /** The module state as an object: POST and GET are its methods. */
  class PersistStore {
    var storedData: Json
    var lastUpdated: Json

    constructor()
      ensures storedData == JNull && lastUpdated == JNull
    {
      storedData := JNull;
      lastUpdated := JNull;
    }

    function State(): Store
      reads this
    {
      Store(storedData, lastUpdated)
    }

    /** `POST`: reads `data` and `timestamp` from the body and overwrites both variables. */
    method Post(body: Option<Json>, now: string) returns (r: PersistResponse)
      modifies this
      ensures (State(), r) == PostStep(old(State()), body, now)
    {
      if body.None? {
        return Failed;
      }
      var data := Member(body.value, "data");
      var timestamp := Member(body.value, "timestamp");
      if data.None? || timestamp.None? {
        return Failed;
      }
      if !Truthy(data.value) {
        return NoData;
      }
      storedData := data.value;
      lastUpdated := if Truthy(timestamp.value) then timestamp.value else JStr(now);
      r := Persisted(lastUpdated);
    }

    /** `GET`: nothing changes. */
    method Get() returns (r: PersistResponse)
      ensures r == GetStep(State())
    {
      if !Truthy(storedData) {
        return NotAvailable;
      }
      r := Loaded(storedData, lastUpdated);
    }
  }

  /** A fresh store answers 404; after a rejected POST it still does; after an accepted one GET
      returns what that POST sent. */
  method PersistScenario(bad: Option<Json>, good: Option<Json>, now: string) returns (first: PersistResponse, second: PersistResponse, third: PersistResponse)
    requires !Accepted(bad) && Accepted(good)
    ensures first == NotAvailable && second == NotAvailable
    ensures third == Loaded(Member(good.value, "data").value, StampOf(good, now))
  {
    var s := new PersistStore();
    first := s.Get();
    var r1 := s.Post(bad, now);
    PostOutcome(EMPTY, bad, now);
    second := s.Get();
    var r2 := s.Post(good, now);
    PostOutcome(EMPTY, good, now);
    third := s.Get();
  }
}
