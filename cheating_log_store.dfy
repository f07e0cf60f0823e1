/** The server's cheating-log collection
    (backend/controllers/cheatingLogController.js): every save inserts a new
    document, and listing filters the collection by exam. */
module CheatingLogStore {
  import opened Common
  import opened CheatingLog

  /** A stored log. The four detector counts are kept as received (None when
      the request lacked them); the focus count and screenshots are defaulted. */
  datatype StoredLog = StoredLog(
    noFaceCount: Option<int>,
    multipleFaceCount: Option<int>,
    cellPhoneCount: Option<int>,
    prohibitedObjectCount: Option<int>,
    focusLostCount: int,
    examId: Option<string>,
    username: Option<string>,
    email: Option<string>,
    screenshots: seq<Screenshot>)

  /** A count as received: present or absent, unchanged. */
  function Received(body: Log, c: Counter): (v: Option<int>)
    ensures v.Some? <==> c in body.counts
    ensures v.Some? ==> v.value == body.counts[c]
  {
    if c in body.counts then Some(body.counts[c]) else None
  }

  /** The document a request body becomes. */
  function ToStored(body: Log): (s: StoredLog)
    ensures s.focusLostCount == CountOf(body, FocusLost) && s.screenshots == ShotsOf(body)
    ensures s.noFaceCount == Received(body, NoFace) && s.multipleFaceCount == Received(body, MultipleFace)
    ensures s.cellPhoneCount == Received(body, CellPhone)
    ensures s.prohibitedObjectCount == Received(body, ProhibitedObject)
    ensures s.examId == body.examId && s.username == body.username && s.email == body.email
  {
    StoredLog(Received(body, NoFace), Received(body, MultipleFace), Received(body, CellPhone),
              Received(body, ProhibitedObject), CountOf(body, FocusLost),
              body.examId, body.username, body.email, ShotsOf(body))
  }

  /** A body that carries no focus count and no screenshots is stored with
      focus count 0 and an empty screenshot list. */
  lemma StoredDefaults(body: Log)
    requires FocusLost !in body.counts && body.screenshots.None?
    ensures ToStored(body).focusLostCount == 0 && ToStored(body).screenshots == []
  {
  }

  /** The logs of one exam, in insertion order. */
  function LogsOfExam(logs: seq<StoredLog>, examId: string): (r: seq<StoredLog>)
    ensures forall x :: multiset(r)[x] == if x.examId == Some(examId) then multiset(logs)[x] else 0
    ensures forall i :: 0 <= i < |r| ==> r[i].examId == Some(examId)
  {
    if logs == [] then []
    else
      var init := logs[..|logs| - 1];
      var last := logs[|logs| - 1];
      assert logs == init + [last];
      LogsOfExam(init, examId) + (if last.examId == Some(examId) then [last] else [])
  }

  /** Listing after a save returns what it returned before, followed by the
      new log when it belongs to the exam. */
  lemma {:induction false} LogsOfExamAppend(logs: seq<StoredLog>, x: StoredLog, examId: string)
    ensures LogsOfExam(logs + [x], examId)
         == LogsOfExam(logs, examId) + (if x.examId == Some(examId) then [x] else [])
  {
    assert (logs + [x])[..|logs|] == logs;
  }

  /** The saved logs. */
  class LogStore {
    var logs: seq<StoredLog>

    constructor ()
      ensures logs == []
    {
      logs := [];
    }

    /** `saveCheatingLog`: inserts one new document and answers 201 with it;
        a failed write (`dbError`) stores nothing. */
    method Save(body: Log, dbError: Option<string>) returns (resp: Response<StoredLog, string>)
      modifies this
      ensures dbError.None? ==> resp == Response(201, Ok(ToStored(body))) && logs == old(logs) + [ToStored(body)]
      ensures dbError.Some? ==> resp.body == Err(dbError.value) && logs == old(logs)
    {
      if dbError.Some? {
        return Response(500, Err(dbError.value));
      }
      var saved := ToStored(body);
      logs := logs + [saved];
      resp := Response(201, Ok(saved));
    }

    /** `getCheatingLogsByExamId`: exactly the logs whose examId equals the
        parameter, with 200. */
    method ByExam(examId: string) returns (resp: Response<seq<StoredLog>, string>)
      ensures resp.status == 200 && resp.body.Ok? && resp.body.value == LogsOfExam(logs, examId)
      ensures forall x :: multiset(resp.body.value)[x]
                          == if x.examId == Some(examId) then multiset(logs)[x] else 0
    {
      resp := Response(200, Ok(LogsOfExam(logs, examId)));
    }
  }

  /** Nothing is merged or replaced: after two saves for the same exam the
      listing holds both, after whatever it held before. */
  method TwoSavesBothListed(store: LogStore, a: Log, b: Log, examId: string)
    returns (listed: seq<StoredLog>)
    requires a.examId == Some(examId) && b.examId == Some(examId)
    modifies store
    ensures listed == LogsOfExam(old(store.logs), examId) + [ToStored(a), ToStored(b)]
  {
    ghost var before := store.logs;
    ghost var sa, sb := ToStored(a), ToStored(b);
    var _ := store.Save(a, None);
    LogsOfExamAppend(before, sa, examId);
    ghost var middle := store.logs;
    var _ := store.Save(b, None);
    LogsOfExamAppend(middle, sb, examId);
    AppendTwo(LogsOfExam(before, examId), sa, sb);
    var resp := store.ByExam(examId);
    listed := resp.body.value;
  }

  lemma AppendTwo<T>(p: seq<T>, x: T, y: T)
    ensures p + [x] + [y] == p + [x, y]
  {
  }
}
