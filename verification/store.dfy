/**
 * The two stored documents and the request handlers that read and write
 * them: `tests` maps a test id to its definition, `subs` maps a test id to
 * the submissions received for it, in arrival order. Each handler is a pure
 * transition from the store before the request to the store after it.
 */
module Store {
  import opened Wrappers
  import opened Grader
  import PlainObject

  datatype Test = Test(testId: string, title: string, duration: int, questions: seq<Question>)

  /** The body of a create/update request; `questions` is `None` when it is not an array. */
  datatype TestPayload = TestPayload(testId: string, title: string, duration: int, questions: Option<seq<Question>>)

  /** The body of a submit request. Identity and timing fields are opaque text. */
  datatype Submission = Submission(
    studentName: string,
    studentId: string,
    answers: Answers,
    startedAt: string,
    submittedAt: string)

  /** One stored attempt: the submission as sent plus its grading. */
  datatype Record = Record(
    studentName: string,
    studentId: string,
    testId: string,
    score: nat,
    maxAuto: nat,
    startedAt: string,
    submittedAt: string,
    answers: Answers,
    results: seq<Item>)

  /**
   * `InvalidPayload` and `NotFound` are the 400 and 404 replies; `Crash` is an
   * uncaught TypeError in a handler, which leaves the documents unwritten.
   */
  datatype Error = InvalidPayload | NotFound | Crash

  datatype Store = Store(tests: map<string, Test>, subs: map<string, seq<Record>>)

  /** A handler's reply together with the store it leaves behind. */
  datatype Step<T> = Step(reply: Result<T, Error>, store: Store)

  /** The store invariant: every stored test has a submissions list. */
  predicate Valid(st: Store) {
    st.tests.Keys <= st.subs.Keys
  }

  /** The documents as first created: two empty objects. */
  const Empty := Store(map[], map[])

  /** The create/update guard: id, title and duration truthy, questions an array. */
  predicate ValidPayload(p: TestPayload) {
    p.testId != "" && p.title != "" && p.duration != 0 && p.questions.Some?
  }

  /** The record appended for submission `sub` to test `id` graded as `o`. */
  function RecordOf(id: string, sub: Submission, o: Outcome): Record {
    Record(sub.studentName, sub.studentId, id, o.score, o.maxAuto,
           sub.startedAt, sub.submittedAt, sub.answers, o.results)
  }

  /**
   * Creates or overwrites a test. A rejected payload changes nothing; an
   * accepted one replaces the definition and gives the id a submissions list,
   * keeping any list that already exists.
   */
  function UpsertTest(st: Store, p: TestPayload): (r: Step<string>)
    ensures !ValidPayload(p) ==> r.reply == Failure(InvalidPayload) && r.store == st
    ensures ValidPayload(p) ==>
      && r.reply == Success(p.testId)
      && r.store.tests.Keys == st.tests.Keys + {p.testId}
      && r.store.tests[p.testId] == Test(p.testId, p.title, p.duration, p.questions.value)
      && (forall id :: id in st.tests && id != p.testId ==> r.store.tests[id] == st.tests[id])
      && r.store.subs.Keys == st.subs.Keys + {p.testId}
      && (p.testId in st.subs ==> r.store.subs[p.testId] == st.subs[p.testId])
      && (p.testId !in st.subs ==> r.store.subs[p.testId] == [])
      && (forall id :: id in st.subs && id != p.testId ==> r.store.subs[id] == st.subs[id])
    ensures Valid(st) ==> Valid(r.store)
  {
    if !ValidPayload(p) then Step(Failure(InvalidPayload), st)
    else
      var tests := st.tests[p.testId := Test(p.testId, p.title, p.duration, p.questions.value)];
      var subs := if p.testId in st.subs then st.subs else st.subs[p.testId := []];
      Step(Success(p.testId), Store(tests, subs))
  }

  /** Reads one test; an unknown id is `NotFound`. */
  function GetTest(st: Store, id: string): (r: Result<Test, Error>)
    ensures r.Success? <==> id in st.tests
    ensures r.Success? ==> r.value == st.tests[id]
    ensures r.Failure? ==> r.error == NotFound
  {
    if id in st.tests then Success(st.tests[id]) else Failure(NotFound)
  }

  /**
   * Grades a submission and appends exactly one record to the end of the
   * test's list. An unknown test is `NotFound` with no effect; on a valid
   * store the append never fails.
   */
  function Submit(st: Store, id: string, sub: Submission): (r: Step<Outcome>)
    ensures id !in st.tests ==> r.reply == Failure(NotFound)
    ensures r.reply.Failure? ==> r.store == st
    ensures Valid(st) && id in st.tests ==> r.reply.Success?
    ensures r.reply.Success? ==>
      && id in st.tests && id in st.subs
      && r.reply.value == Grade(st.tests[id].questions, sub.answers)
      && r.store.tests == st.tests
      && r.store.subs.Keys == st.subs.Keys
      && |r.store.subs[id]| == |st.subs[id]| + 1
      && r.store.subs[id][..|st.subs[id]|] == st.subs[id]
      && r.store.subs[id][|st.subs[id]|] == RecordOf(id, sub, r.reply.value)
      && (forall k :: k in st.subs && k != id ==> r.store.subs[k] == st.subs[k])
    ensures Valid(st) ==> Valid(r.store)
  {
    if id !in st.tests then Step(Failure(NotFound), st)
    else
      var o := Grade(st.tests[id].questions, sub.answers);
      // pushing onto a list that is not there throws
      if id !in st.subs then Step(Failure(Crash), st)
      else Step(Success(o), Store(st.tests, st.subs[id := st.subs[id] + [RecordOf(id, sub, o)]]))
  }

  /** The submissions for a test, in arrival order; an unknown id has none. */
  function ListSubmissions(st: Store, id: string): (r: seq<Record>)
    ensures id in st.subs ==> r == st.subs[id]
    ensures id !in st.subs ==> r == []
  {
    if id in st.subs then st.subs[id] else []
  }

  /** Reading back an accepted test returns it as written, questions in the same order. */
  lemma UpsertThenGet(st: Store, p: TestPayload)
    requires ValidPayload(p)
    ensures GetTest(UpsertTest(st, p).store, p.testId) == Success(Test(p.testId, p.title, p.duration, p.questions.value))
    ensures ListSubmissions(UpsertTest(st, p).store, p.testId) == ListSubmissions(st, p.testId)
  {
  }

  /** Repeating an upsert changes nothing more: the operation is safe to retry. */
  lemma UpsertIdempotent(st: Store, p: TestPayload)
    ensures UpsertTest(UpsertTest(st, p).store, p) == UpsertTest(st, p)
  {
  }

  /** Two submissions to the same test are both listed, in the order they arrived. */
  lemma SubmissionsKeepArrivalOrder(st: Store, id: string, a: Submission, b: Submission)
    requires Valid(st) && id in st.tests
    ensures var s1 := Submit(st, id, a).store;
            var s2 := Submit(s1, id, b).store;
            ListSubmissions(s2, id) == ListSubmissions(st, id)
              + [RecordOf(id, a, Grade(st.tests[id].questions, a.answers)),
                 RecordOf(id, b, Grade(st.tests[id].questions, b.answers))]
  {
  }

  /** A request the server may receive. */
  datatype Request = UpsertRequest(payload: TestPayload) | SubmitRequest(id: string, sub: Submission)

  /** The store after handling `reqs` in order, starting from `st`. */
  function Replay(st: Store, reqs: seq<Request>): Store
    decreases |reqs|
  {
    if reqs == [] then st
    else
      var next := match reqs[0]
        case UpsertRequest(p) => UpsertTest(st, p).store
        case SubmitRequest(id, sub) => Submit(st, id, sub).store;
      Replay(next, reqs[1..])
  }

  /** Every request keeps the invariant, so every reachable store is valid. */
  lemma {:induction false} ReplayKeepsValid(st: Store, reqs: seq<Request>)
    requires Valid(st)
    ensures Valid(Replay(st, reqs))
    decreases |reqs|
  {
    if reqs != [] {
      var next := match reqs[0]
        case UpsertRequest(p) => UpsertTest(st, p).store
        case SubmitRequest(id, sub) => Submit(st, id, sub).store;
      ReplayKeepsValid(next, reqs[1..]);
    }
  }

  /**
   * From the empty documents, whatever requests came before, a submit to a
   * stored test records it and never reaches the failing push.
   */
  lemma SubmitNeverCrashes(reqs: seq<Request>, id: string, sub: Submission)
    ensures Submit(Replay(Empty, reqs), id, sub).reply != Failure(Crash)
  {
    ReplayKeepsValid(Empty, reqs);
  }

  /**
   * The create/update handler as written: whether a submissions list already
   * exists is decided by the truthiness of `subs[testId]`, which inherited
   * property names pass.
   */
  function UpsertTestAsWritten(st: Store, p: TestPayload): (r: Step<string>)
    ensures p.testId !in PlainObject.InheritedNames ==> r == UpsertTest(st, p)
    ensures !ValidPayload(p) ==> r.reply == Failure(InvalidPayload) && r.store == st
  {
    if !ValidPayload(p) then Step(Failure(InvalidPayload), st)
    else
      var tests := st.tests[p.testId := Test(p.testId, p.title, p.duration, p.questions.value)];
      var subs := if PlainObject.Truthy(PlainObject.Lookup(st.subs, p.testId)) then st.subs
                  else st.subs[p.testId := []];
      Step(Success(p.testId), Store(tests, subs))
  }

  /**
   * The submit handler as written: an inherited name passes the `!test`
   * check and then has no `questions`, and an inherited or missing list has
   * no `push`; both throw.
   */
  function SubmitAsWritten(st: Store, id: string, sub: Submission): (r: Step<Outcome>)
    ensures id !in PlainObject.InheritedNames ==> r == Submit(st, id, sub)
    ensures r.reply.Failure? ==> r.store == st
  {
    match PlainObject.Lookup(st.tests, id)
    case Undefined => Step(Failure(NotFound), st)
    case Inherited => Step(Failure(Crash), st)
    case Own(t) =>
      var o := Grade(t.questions, sub.answers);
      match PlainObject.Lookup(st.subs, id)
      case Own(l) => Step(Success(o), Store(st.tests, st.subs[id := l + [RecordOf(id, sub, o)]]))
      case _ => Step(Failure(Crash), st)
  }

  /**
   * A test created under the id "constructor" gets no submissions list, so
   * the store invariant breaks and every later submission to it throws;
   * with own-key lookups the same requests succeed.
   */
  lemma ConstructorIdLosesSubmissions(p: TestPayload, sub: Submission)
    requires p == TestPayload("constructor", "Quiz", 30, Some([]))
    ensures var s1 := UpsertTestAsWritten(Empty, p).store;
      && !Valid(s1)
      && SubmitAsWritten(s1, "constructor", sub).reply == Failure(Crash)
    ensures Submit(UpsertTest(Empty, p).store, "constructor", sub).reply.Success?
  {
  }

  /**
   * Submitting to an unknown inherited name such as "toString" throws
   * instead of answering `NotFound`; with own-key lookups it is `NotFound`
   * and changes nothing.
   */
  lemma InheritedIdIsNotNotFound(st: Store, n: string, sub: Submission)
    requires n in PlainObject.InheritedNames && n !in st.tests
    ensures SubmitAsWritten(st, n, sub).reply == Failure(Crash)
    ensures Submit(st, n, sub) == Step(Failure(NotFound), st)
  {
  }
}
