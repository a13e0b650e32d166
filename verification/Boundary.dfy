/**
 The registry's observation log and receipts (internal/registry), under any interleaving of any
 number of clients. Each locked section of Handler is one atomic step. A request is recorded when
 its handler returns, and only then does the server end the answer: a client that reads an answer
 to its end knows that the request is recorded, and one that gives up does not.
 */
module Boundary {
  import opened Prelude
  import opened Network
  import opened Registry

  datatype Observations = Observations(requests: seq<Request>, byRun: map<string, seq<Request>>)

  const NOTHING_OBSERVED := Observations([], map[])

  function RunRequests(o: Observations, run: string): seq<Request>
  {
    if run in o.byRun then o.byRun[run] else []
  }

  function RecordIn(o: Observations, r: Request, run: string): Observations
  {
    Observations(o.requests + [r], if run == "" then o.byRun else o.byRun[run := RunRequests(o, run) + [r]])
  }

  // ----- receipts -----

  /* The MAC of the receipt with its signature blanked, under a key that names the registry it speaks for. */
  function SignReceipt(crypto: Crypto, receipt: Receipt, signingKey: string): string
  {
    "hmac-sha256:" + crypto.mac(signingKey + ":" + receipt.source, receipt.(signature := ""))
  }

  predicate VerifyReceipt(crypto: Crypto, receipt: Receipt, signingKey: string)
  {
    receipt.signature == SignReceipt(crypto, receipt, signingKey)
  }

  function UnsignedReceipt(set_: FixtureSet, run: string, requests: seq<Request>): Receipt
  {
    Receipt(RECEIPT_FORMAT, set_.id, set_.role, set_.revision, run, |requests|, requests, "")
  }

  function SignedReceipt(crypto: Crypto, set_: FixtureSet, config: ReceiptConfig, run: string,
                         requests: seq<Request>): Receipt
  {
    var unsigned := UnsignedReceipt(set_, run, requests);
    unsigned.(signature := SignReceipt(crypto, unsigned, config.signingKey))
  }

  function ServeReceipt(crypto: Crypto, set_: FixtureSet, config: ReceiptConfig, o: Observations,
                        http: HttpRequest): Response
  {
    if http.verb != "GET" && http.verb != "HEAD" then Response(METHOD_NOT_ALLOWED, Refusal("method_not_allowed"))
    else if config.credential == "" || config.signingKey == "" then Response(NOT_FOUND, Refusal("not_found"))
    else if http.scheme != RECEIPT_SCHEME || http.presented != config.credential
      then Response(UNAUTHORIZED, Refusal("unauthorized"))
    else
      match Single(http.query, "run")
      case None => Response(BAD_REQUEST, Refusal("bad_request"))
      case Some(run) =>
        if |http.query| != 1 then Response(BAD_REQUEST, Refusal("bad_request"))
        else Response(OK, ReceiptBody(SignedReceipt(crypto, set_, config, run, RunRequests(o, run))))
  }

  /* Whether a receipt may be read at all, and then what it says: the requests of one run at this registry. */
  lemma ReceiptAnswersExactly(crypto: Crypto, set_: FixtureSet, config: ReceiptConfig, o: Observations,
                              http: HttpRequest)
    ensures var response := ServeReceipt(crypto, set_, config, o, http);
            var readable, open_ := http.verb == "GET" || http.verb == "HEAD",
                                config.credential != "" && config.signingKey != "";
            var permitted := http.scheme == RECEIPT_SCHEME && http.presented == config.credential;
            && (response.status == METHOD_NOT_ALLOWED <==> !readable)
            && (response.status == NOT_FOUND <==> readable && !open_)
            && (response.status == UNAUTHORIZED <==> readable && open_ && !permitted)
            && (response.status == BAD_REQUEST <==> readable && open_ && permitted && !Asks(http.query, {"run"}))
            && (response.status == OK <==> readable && open_ && permitted && Asks(http.query, {"run"}))
            && (response.status == OK <==> response.body.ReceiptBody?)
            && (response.status == OK ==>
                  var receipt := response.body.receipt;
                  && receipt.format == RECEIPT_FORMAT && receipt.source == set_.id && receipt.role == set_.role
                  && receipt.revision == set_.revision && receipt.run == http.query["run"][0]
                  && receipt.requests == RunRequests(o, receipt.run) && receipt.requestCount == |receipt.requests|
                  && VerifyReceipt(crypto, receipt, config.signingKey))
  {
    AsksRun(http.query);
  }

  lemma AsksRun(query: map<string, seq<string>>)
    ensures Asks(query, {"run"}) <==> Single(query, "run").Some? && |query| == 1
  {
    assert |query| == |query.Keys|;
    if Single(query, "run").Some? && |query| == 1 {
      SameSize({"run"}, query.Keys);
    }
  }

  /* The signature covers the registry twice: a MAC that heeds only its key already tells two registries apart, and one
     that heeds only its text tells any two receipts apart. */
  lemma SignatureNamesRegistry(crypto: Crypto, a: Receipt, b: Receipt, key: string)
    ensures (forall k, l, r, s :: crypto.mac(k, r) == crypto.mac(l, s) <==> k == l) ==>
              (SignReceipt(crypto, a, key) == SignReceipt(crypto, b, key) <==> a.source == b.source)
    ensures (forall k, l, r, s :: crypto.mac(k, r) == crypto.mac(l, s) <==> r == s) ==>
              (SignReceipt(crypto, a, key) == SignReceipt(crypto, b, key) <==>
               a.(signature := "") == b.(signature := ""))
  {
    var s, t := SignReceipt(crypto, a, key), SignReceipt(crypto, b, key);
    assert s[12..] == crypto.mac(key + ":" + a.source, a.(signature := ""));
    assert t[12..] == crypto.mac(key + ":" + b.source, b.(signature := ""));
    assert (key + ":" + a.source)[|key| + 1..] == a.source && (key + ":" + b.source)[|key| + 1..] == b.source;
  }

  /* What is observed once one request has been handled: a receipt read observes nothing. */
  function Handled(crypto: Crypto, set_: FixtureSet, o: Observations, http: HttpRequest): Observations
  {
    if http.path == RECEIPT_PATH then o else RecordIn(o, Serve(crypto, set_, http).0, http.runId)
  }

  class Handler {
    const crypto: Crypto
    const set_: FixtureSet
    const receipts: ReceiptConfig
    var requests: seq<Request>
    var byRun: map<string, seq<Request>>

    constructor (crypto: Crypto, set_: FixtureSet, receipts: ReceiptConfig)
      ensures this.crypto == crypto && this.set_ == set_ && this.receipts == receipts
      ensures Observed() == NOTHING_OBSERVED
    {
      this.crypto, this.set_, this.receipts := crypto, set_, receipts;
      requests, byRun := [], map[];
    }

    function Observed(): Observations
      reads this
    {
      Observations(requests, byRun)
    }

    method Reset()
      modifies this
      ensures Observed() == NOTHING_OBSERVED
    {
      requests, byRun := [], map[];
    }

    method Record(r: Request, run: string)
      modifies this
      ensures Observed() == RecordIn(old(Observed()), r, run)
    {
      requests := requests + [r];
      if run != "" {
        byRun := byRun[run := (if run in byRun then byRun[run] else []) + [r]];
      }
    }

    method ObservedFor(run: string) returns (out: seq<Request>)
      ensures out == RunRequests(Observed(), run)
    {
      out := if run in byRun then byRun[run] else [];
    }

    /* Reading a receipt observes and changes nothing; every other request is recorded. */
    method ServeHTTP(http: HttpRequest) returns (response: Response)
      modifies this
      ensures Observed() == Handled(crypto, set_, old(Observed()), http)
      ensures response == if http.path == RECEIPT_PATH then ServeReceipt(crypto, set_, receipts, old(Observed()), http)
                          else Serve(crypto, set_, http).1
    {
      if http.path == RECEIPT_PATH {
        response := AnswerReceipt(http);
        return;
      }
      var req := Request(http.verb, http.path, "", "", 0);
      if http.verb != "GET" && http.verb != "HEAD" {
        req, response := Refuse(req, METHOD_NOT_ALLOWED, "method_not_allowed").0,
            Response(METHOD_NOT_ALLOWED, Refusal("method_not_allowed"));
      } else if http.path == METADATA_PATH {
        req, response := AnswerMetadata(http, req);
      } else if http.path == ARTIFACT_PATH {
        req, response := AnswerArtifact(http, req);
      } else {
        req, response := Refuse(req, NOT_FOUND, "not_found").0, Response(NOT_FOUND, Refusal("not_found"));
      }
      Record(req, http.runId);
    }

    method AnswerMetadata(http: HttpRequest, r: Request) returns (req: Request, response: Response)
      requires (http.verb == "GET" || http.verb == "HEAD") && http.path == METADATA_PATH
      requires r == Request(http.verb, http.path, "", "", 0)
      ensures (req, response) == Serve(crypto, set_, http)
    {
      req := r;
      var name := Single(http.query, "name");
      if name.None? || |http.query| != 1 {
        return req.(status := BAD_REQUEST), Response(BAD_REQUEST, Refusal("bad_request"));
      }
      req := req.(name := name.value);
      var pkg := FindPackage(set_.packages, name.value);
      if pkg.None? {
        return req.(status := NOT_FOUND), Response(NOT_FOUND, Refusal("not_found"));
      }
      var listed: seq<VersionInfo> := [];
      for i := 0 to |pkg.value.versions|
        invariant |listed| == i
        invariant forall k :: 0 <= k < i ==>
                    listed[k] == VersionInfo(pkg.value.versions[k].version, |pkg.value.versions[k].bytes|,
                                             crypto.digest(pkg.value.versions[k].bytes))
      {
        var a := pkg.value.versions[i];
        listed := listed + [VersionInfo(a.version, |a.bytes|, crypto.digest(a.bytes))];
      }
      var meta := Metadata(METADATA_FORMAT, set_.id, set_.role, pkg.value.name, listed);
      assert meta == DescribePackage(crypto, set_, pkg.value);
      req, response := req.(status := OK), Response(OK, MetadataBody(meta));
    }

    method AnswerArtifact(http: HttpRequest, r: Request) returns (req: Request, response: Response)
      requires (http.verb == "GET" || http.verb == "HEAD") && http.path == ARTIFACT_PATH
      requires r == Request(http.verb, http.path, "", "", 0)
      ensures (req, response) == Serve(crypto, set_, http)
    {
      req := r;
      var name, version := Single(http.query, "name"), Single(http.query, "version");
      if name.None? || version.None? || |http.query| != 2 {
        return req.(status := BAD_REQUEST), Response(BAD_REQUEST, Refusal("bad_request"));
      }
      req := req.(name := name.value, version := version.value);
      var artifact := FindArtifact(set_.packages, name.value, version.value);
      if artifact.None? {
        return req.(status := NOT_FOUND), Response(NOT_FOUND, Refusal("not_found"));
      }
      req, response := req.(status := OK), Response(OK, ArtifactBody(artifact.value.bytes));
    }

    method AnswerReceipt(http: HttpRequest) returns (response: Response)
      ensures response == ServeReceipt(crypto, set_, receipts, Observed(), http)
    {
      if http.verb != "GET" && http.verb != "HEAD" {
        return Response(METHOD_NOT_ALLOWED, Refusal("method_not_allowed"));
      }
      if receipts.credential == "" || receipts.signingKey == "" {
        return Response(NOT_FOUND, Refusal("not_found"));
      }
      if http.scheme != RECEIPT_SCHEME || http.presented != receipts.credential {
        return Response(UNAUTHORIZED, Refusal("unauthorized"));
      }
      var run := Single(http.query, "run");
      if run.None? || |http.query| != 1 {
        return Response(BAD_REQUEST, Refusal("bad_request"));
      }
      var observed := ObservedFor(run.value);
      var receipt := UnsignedReceipt(set_, run.value, observed);
      receipt := receipt.(signature := SignReceipt(crypto, receipt, receipts.signingKey));
      response := Response(OK, ReceiptBody(receipt));
    }
  }

  // ----- any interleaving -----

  /* A request a client has made, under the run id it carries. */
  datatype Flight = Flight(client: nat, run: string, request: Request)

  datatype Step =
    | Ask(client: nat, http: HttpRequest)   // a client's request is handled; its record is pending
    | Complete(flight: nat)                 // a handler returns: one pending record is written
    | Finish(answer: nat)                   // the end of a completed answer reaches its client
    | Clear                                 // Reset
    | Read(client: nat, http: HttpRequest)  // a client asks for a receipt

  /*
   The registry's own state, and beside it what really happened since the last reset, the completed
   requests whose answers have still to end, and the requests whose answers their clients have not
   read to the end.
   */
  datatype System = System(
    observed: Observations, pending: seq<Flight>, completed: seq<Flight>, asked: seq<Flight>,
    ending: seq<Flight>, unfinished: multiset<Flight>)

  const INITIAL := System(NOTHING_OBSERVED, [], [], [], [], multiset{})

  function FlightOf(crypto: Crypto, set_: FixtureSet, c: nat, http: HttpRequest): Flight
  {
    Flight(c, http.runId, Serve(crypto, set_, http).0)
  }

  function Next(crypto: Crypto, set_: FixtureSet, s: System, step: Step): System
  {
    match step
    case Ask(c, http) =>
      if http.path == RECEIPT_PATH then s
      else
        var flight := FlightOf(crypto, set_, c, http);
        s.(pending := s.pending + [flight], asked := s.asked + [flight], unfinished := s.unfinished + multiset{flight})
    case Complete(i) =>
      if i >= |s.pending| then s
      else
        var f := s.pending[i];
        s.(observed := RecordIn(s.observed, f.request, f.run),
           pending := s.pending[..i] + s.pending[i + 1..],
           completed := s.completed + [f],
           ending := s.ending + [f])
    case Finish(i) =>
      if i >= |s.ending| then s
      else s.(ending := s.ending[..i] + s.ending[i + 1..], unfinished := s.unfinished - multiset{s.ending[i]})
    case Clear => s.(observed := NOTHING_OBSERVED, completed := [], asked := s.pending)
    case Read(_, _) => s
  }

  function After(crypto: Crypto, set_: FixtureSet, steps: seq<Step>): System
  {
    if steps == [] then INITIAL
    else Next(crypto, set_, After(crypto, set_, steps[..|steps| - 1]), steps[|steps| - 1])
  }

  lemma AfterSnoc(crypto: Crypto, set_: FixtureSet, steps: seq<Step>, step: Step)
    ensures After(crypto, set_, steps + [step]) ==
            Next(crypto, set_, After(crypto, set_, steps), step)
  {
    assert (steps + [step])[..|steps + [step]| - 1] == steps;
  }

  /* Handling one request with nothing between is asking it and completing it, or reading a receipt: whatever else is
     pending, ServeHTTP leaves what those steps leave. */
  lemma HandlingIsSteps(crypto: Crypto, set_: FixtureSet, s: System, c: nat, http: HttpRequest)
    ensures var asked := Next(crypto, set_, s, Ask(c, http));
            var done := Next(crypto, set_, asked, if http.path == RECEIPT_PATH then Read(c, http)
                                                  else Complete(|s.pending|));
            && asked.observed == s.observed && done.observed == Handled(crypto, set_, s.observed, http)
            && done.pending == s.pending
            && done.completed == s.completed +
                                 (if http.path == RECEIPT_PATH then [] else [FlightOf(crypto, set_, c, http)])
  {
    if http.path != RECEIPT_PATH {
      var flight := FlightOf(crypto, set_, c, http);
      var asked := Next(crypto, set_, s, Ask(c, http));
      assert asked.pending == s.pending + [flight] && asked.pending[|s.pending|] == flight;
    }
  }

  function RequestsOf(fs: seq<Flight>): seq<Request>
  {
    Map((f: Flight) => f.request, fs)
  }

  function ByClient(fs: seq<Flight>, c: nat): seq<Flight>
  {
    Filter((f: Flight) => f.client == c, fs)
  }

  function ByRun(fs: seq<Flight>, run: string): seq<Flight>
  {
    Filter((f: Flight) => f.run == run, fs)
  }

  /* The registry's log is what completed, its per-run index is that log filtered by label, every request
     asked is completed or pending, and an answer not read to its end belongs to a request that is pending or
     has just completed. */
  ghost predicate Inv(s: System)
  {
    && s.observed.requests == RequestsOf(s.completed)
    && (forall run :: run != "" ==> RunRequests(s.observed, run) == RequestsOf(ByRun(s.completed, run)))
    && "" !in s.observed.byRun
    && multiset(s.asked) == multiset(s.completed) + multiset(s.pending)
    && s.unfinished == multiset(s.pending) + multiset(s.ending)
  }

  lemma CompleteKeepsInv(s: System, i: nat)
    requires Inv(s) && i < |s.pending|
    ensures var f := s.pending[i];
            Inv(s.(observed := RecordIn(s.observed, f.request, f.run),
                          pending := s.pending[..i] + s.pending[i + 1..],
                          completed := s.completed + [f],
                          ending := s.ending + [f]))
  {
    var f := s.pending[i];
    var o := RecordIn(s.observed, f.request, f.run);
    MapAppend((f: Flight) => f.request, s.completed, [f]);
    forall run | run != "" ensures RunRequests(o, run) == RequestsOf(ByRun(s.completed + [f], run)) {
      FilterSnoc((f: Flight) => f.run == run, s.completed, f);
      MapAppend((f: Flight) => f.request, ByRun(s.completed, run), [f]);
    }
    assert s.pending == s.pending[..i] + [f] + s.pending[i + 1..];
  }

  lemma FinishKeepsInv(s: System, i: nat)
    requires Inv(s) && i < |s.ending|
    ensures Inv(s.(ending := s.ending[..i] + s.ending[i + 1..],
                          unfinished := s.unfinished - multiset{s.ending[i]}))
  {
    assert s.ending == s.ending[..i] + [s.ending[i]] + s.ending[i + 1..];
  }

  lemma AskKeepsInv(s: System, f: Flight)
    requires Inv(s)
    ensures Inv(s.(pending := s.pending + [f], asked := s.asked + [f], unfinished := s.unfinished + multiset{f}))
  {
  }

  lemma ClearKeepsInv(s: System)
    requires Inv(s)
    ensures Inv(s.(observed := NOTHING_OBSERVED, completed := [], asked := s.pending))
  {
  }

  lemma NextKeepsInv(crypto: Crypto, set_: FixtureSet, s: System, step: Step)
    requires Inv(s)
    ensures Inv(Next(crypto, set_, s, step))
  {
    match step
    case Ask(c, http) =>
      AskKeepsInv(s, FlightOf(crypto, set_, c, http));
    case Complete(i) =>
      if i < |s.pending| {
        CompleteKeepsInv(s, i);
      }
    case Finish(i) =>
      if i < |s.ending| {
        FinishKeepsInv(s, i);
      }
    case Clear =>
      ClearKeepsInv(s);
    case Read(_, _) =>
  }

  lemma {:induction false} InvAlways(crypto: Crypto, set_: FixtureSet, steps: seq<Step>)
    ensures Inv(After(crypto, set_, steps))
  {
    if steps != [] {
      var init := steps[..|steps| - 1];
      InvAlways(crypto, set_, init);
      NextKeepsInv(crypto, set_, After(crypto, set_, init), steps[|steps| - 1]);
    }
  }

  /* The request of a step is one that a handler records. */
  predicate Recordable(step: Step)
  {
    step.Ask? && step.http.path != RECEIPT_PATH
  }

  ghost predicate AllFlights(ok: Flight -> bool, s: System)
  {
    (forall f :: f in s.completed ==> ok(f)) && (forall f :: f in s.pending ==> ok(f))
  }

  /* Every request asked is one that ok accepts. */
  ghost predicate AllAsked(crypto: Crypto, set_: FixtureSet, ok: Flight -> bool, steps: seq<Step>)
  {
    forall step :: step in steps && Recordable(step) ==> ok(FlightOf(crypto, set_, step.client, step.http))
  }

  lemma NextKeepsFlights(crypto: Crypto, set_: FixtureSet, ok: Flight -> bool, s: System, step: Step)
    requires AllFlights(ok, s) && (Recordable(step) ==> ok(FlightOf(crypto, set_, step.client, step.http)))
    ensures AllFlights(ok, Next(crypto, set_, s, step))
  {
    if step.Complete? && step.flight < |s.pending| {
      assert s.pending[step.flight] in s.pending;
    }
  }

  /* Whatever holds of every request asked holds of every request in flight or completed. */
  lemma {:induction false} AskedIsKept(crypto: Crypto, set_: FixtureSet, ok: Flight -> bool, steps: seq<Step>)
    requires AllAsked(crypto, set_, ok, steps)
    ensures AllFlights(ok, After(crypto, set_, steps))
  {
    if steps != [] {
      var init, last := steps[..|steps| - 1], steps[|steps| - 1];
      assert last in steps && forall step :: step in init ==> step in steps;
      AskedIsKept(crypto, set_, ok, init);
      NextKeepsFlights(crypto, set_, ok, After(crypto, set_, init), last);
    }
  }

  /* Every request of the client carries this run id. */
  ghost predicate CarriesRun(steps: seq<Step>, c: nat, run: string)
  {
    forall step :: step in steps && Recordable(step) && step.client == c ==> step.http.runId == run
  }

  /* The run id is the client's own: all its requests carry it, and no other client's does. */
  ghost predicate OwnsRun(steps: seq<Step>, c: nat, run: string)
  {
    forall step :: step in steps && Recordable(step) ==> (step.http.runId == run <==> step.client == c)
  }

  /* No other client has completed a request under the run id. */
  ghost predicate OnlyClient(s: System, c: nat, run: string)
  {
    forall f :: f in s.completed && f.run == run ==> f.client == c
  }

  lemma {:induction false} LabelSplit(fs: seq<Flight>, c: nat, run: string)
    requires forall f :: f in fs && f.client == c ==> f.run == run
    ensures |ByRun(fs, run)| >= |ByClient(fs, c)|
    ensures |ByRun(fs, run)| == |ByClient(fs, c)| <==> forall f :: f in fs && f.run == run ==> f.client == c
  {
    if fs != [] {
      assert fs[0] in fs && forall f :: f in fs <==> f == fs[0] || f in fs[1..];
      LabelSplit(fs[1..], c, run);
    }
  }

  lemma CarriedByAll(crypto: Crypto, set_: FixtureSet, steps: seq<Step>, c: nat, run: string)
    requires CarriesRun(steps, c, run)
    ensures forall f :: f in After(crypto, set_, steps).completed && f.client == c ==> f.run == run
  {
    var ok := (f: Flight) => f.client == c ==> f.run == run;
    AskedIsKept(crypto, set_, ok, steps);
    assert forall f :: f in After(crypto, set_, steps).completed ==> ok(f);
  }

  lemma OwnedByClient(crypto: Crypto, set_: FixtureSet, steps: seq<Step>, c: nat, run: string)
    requires OwnsRun(steps, c, run)
    ensures OnlyClient(After(crypto, set_, steps), c, run)
  {
    var ok := (f: Flight) => f.run == run <==> f.client == c;
    AskedIsKept(crypto, set_, ok, steps);
    assert forall f :: f in After(crypto, set_, steps).completed ==> ok(f);
  }

  /* For every interleaving of every number of clients, under whatever run ids: what the registry reports for
     the non-empty run id of a client is that client's own completed requests since the last reset, in
     recording order, exactly when no other client has completed one under that run id. */
  lemma ReceiptEqualsTrace(crypto: Crypto, set_: FixtureSet, steps: seq<Step>, c: nat, run: string)
    requires run != "" && CarriesRun(steps, c, run)
    ensures var s := After(crypto, set_, steps);
            RunRequests(s.observed, run) == RequestsOf(ByClient(s.completed, c)) <==> OnlyClient(s, c, run)
  {
    var s := After(crypto, set_, steps);
    InvAlways(crypto, set_, steps);
    CarriedByAll(crypto, set_, steps, c, run);
    LabelSplit(s.completed, c, run);
    if OnlyClient(s, c, run) {
      FilterSame((f: Flight) => f.run == run, (f: Flight) => f.client == c, s.completed);
    }
  }

  /* Two clients under one run id share its receipt: a request only one of them made is reported to the other. */
  lemma SharedRunIdSharesReceipt(crypto: Crypto, set_: FixtureSet, c: nat, d: nat, http: HttpRequest)
    requires c != d && http.runId != "" && http.path != RECEIPT_PATH
    ensures var s := After(crypto, set_, [Ask(d, http), Complete(0)]);
            && ByClient(s.asked, c) == [] && RunRequests(s.observed, http.runId) == [Serve(crypto, set_, http).0]
  {
    AskedAndCompleted(crypto, set_, d, http);
    FilterSingle((f: Flight) => f.client == c, FlightOf(crypto, set_, d, http));
  }

  /* The state after one request was asked, and after it was completed. */
  lemma AskedAndCompleted(crypto: Crypto, set_: FixtureSet, c: nat, http: HttpRequest)
    requires http.path != RECEIPT_PATH
    ensures var f := FlightOf(crypto, set_, c, http);
            && After(crypto, set_, [Ask(c, http)]) == System(NOTHING_OBSERVED, [f], [], [f], [], multiset{f})
            && After(crypto, set_, [Ask(c, http), Complete(0)]) ==
               System(RecordIn(NOTHING_OBSERVED, f.request, f.run), [], [f], [f], [f], multiset{f})
  {
    var ask, both := [Ask(c, http)], [Ask(c, http), Complete(0)];
    AfterSnoc(crypto, set_, [], Ask(c, http));
    AfterSnoc(crypto, set_, ask, Complete(0));
    assert [] + ask == ask && ask + [Complete(0)] == both;
  }

  /* With a run id of its own there is never such another client. */
  lemma DistinctRunsAreSeparate(crypto: Crypto, set_: FixtureSet, steps: seq<Step>, c: nat, run: string)
    requires run != "" && OwnsRun(steps, c, run)
    ensures var s := After(crypto, set_, steps);
            && RunRequests(s.observed, run) == RequestsOf(ByClient(s.completed, c))
            && multiset(ByClient(s.asked, c)) == multiset(ByClient(s.completed, c)) + multiset(ByClient(s.pending, c))
            && |RunRequests(s.observed, run)| == |ByClient(s.asked, c)| - |ByClient(s.pending, c)|
  {
    var s := After(crypto, set_, steps);
    ReceiptEqualsTrace(crypto, set_, steps, c, run);
    InvAlways(crypto, set_, steps);
    OwnedByClient(crypto, set_, steps, c, run);
    var mine := (f: Flight) => f.client == c;
    assert multiset(s.completed + s.pending) == multiset(s.asked);
    FilterPermuted(mine, s.asked, s.completed + s.pending);
    FilterAppend(mine, s.completed, s.pending);
  }

  /* The requests, receipts aside, that a client made. */
  function AsksOf(steps: seq<Step>, c: nat): seq<HttpRequest>
  {
    if steps == [] then []
    else
      var init := AsksOf(steps[..|steps| - 1], c);
      match steps[|steps| - 1]
      case Ask(d, http) => if d == c && http.path != RECEIPT_PATH then init + [http] else init
      case _ => init
  }

  /* Where nothing was reset, what a client asked is what it was served, in the order it asked. */
  lemma {:induction false} AskedAreServed(crypto: Crypto, set_: FixtureSet, steps: seq<Step>,
                                          c: nat)
    requires Clear !in steps
    ensures RequestsOf(ByClient(After(crypto, set_, steps).asked, c)) ==
            Map((http: HttpRequest) => Serve(crypto, set_, http).0, AsksOf(steps, c))
  {
    if steps != [] {
      var init, last := steps[..|steps| - 1], steps[|steps| - 1];
      AskedAreServed(crypto, set_, init, c);
      var s := After(crypto, set_, init);
      assert last in steps;
      if last.Ask? && last.http.path != RECEIPT_PATH {
        var flight := FlightOf(crypto, set_, last.client, last.http);
        FilterSnoc((f: Flight) => f.client == c, s.asked, flight);
        MapAppend((f: Flight) => f.request, ByClient(s.asked, c), [flight]);
        MapAppend((http: HttpRequest) => Serve(crypto, set_, http).0, AsksOf(init, c), [last.http]);
      }
    }
  }

  // ----- clients that read their answers to the end -----

  /* The client has read to its end every answer it asked for. */
  ghost predicate Idle(s: System, c: nat)
  {
    forall f :: f in s.unfinished ==> f.client != c
  }

  predicate IssuedBy(step: Step, c: nat)
  {
    (step.Ask? || step.Read?) && step.client == c
  }

  /* The client reads each answer to its end before its next request, receipts included. */
  ghost predicate ReadsToEnd(crypto: Crypto, set_: FixtureSet, steps: seq<Step>, c: nat)
  {
    forall i: nat :: i < |steps| && IssuedBy(steps[i], c) ==> Idle(After(crypto, set_, steps[..i]), c)
  }

  lemma ReadsToEndInit(crypto: Crypto, set_: FixtureSet, steps: seq<Step>, c: nat)
    requires steps != [] && ReadsToEnd(crypto, set_, steps, c)
    ensures ReadsToEnd(crypto, set_, steps[..|steps| - 1], c)
    ensures IssuedBy(steps[|steps| - 1], c) ==> Idle(After(crypto, set_, steps[..|steps| - 1]), c)
  {
    var init := steps[..|steps| - 1];
    assert forall i: nat :: i < |init| ==> init[..i] == steps[..i] && init[i] == steps[i];
  }

  lemma IdleHasNothingPending(s: System, c: nat)
    requires Inv(s) && Idle(s, c)
    ensures ByClient(s.pending, c) == []
  {
    forall f | f in s.pending ensures f.client != c {
      assert f in multiset(s.pending);
    }
    FilterNone((f: Flight) => f.client == c, s.pending);
  }

  /* What the client asked since the last reset is what completed, in the order it asked, and at most one
     request more. */
  ghost predicate InOrder(s: System, c: nat)
  {
    ByClient(s.asked, c) == ByClient(s.completed, c) + ByClient(s.pending, c) && |ByClient(s.pending, c)| <= 1
  }

  lemma CompleteKeepsOrder(s: System, i: nat, c: nat)
    requires InOrder(s, c) && i < |s.pending|
    ensures InOrder(s.(pending := s.pending[..i] + s.pending[i + 1..], completed := s.completed + [s.pending[i]]), c)
  {
    FilterSnoc((f: Flight) => f.client == c, s.completed, s.pending[i]);
    MineAround(s.pending, i, c);
  }

  /* A client with at most one request in flight has either this one or another. */
  lemma MineAround(fs: seq<Flight>, i: nat, c: nat)
    requires i < |fs| && |ByClient(fs, c)| <= 1
    ensures fs[i].client == c ==> ByClient(fs, c) == [fs[i]] && ByClient(fs[..i] + fs[i + 1..], c) == []
    ensures fs[i].client != c ==> ByClient(fs[..i] + fs[i + 1..], c) == ByClient(fs, c)
  {
    var mine := (f: Flight) => f.client == c;
    assert fs == fs[..i] + ([fs[i]] + fs[i + 1..]);
    FilterAppend(mine, fs[..i], [fs[i]] + fs[i + 1..]);
    FilterAppend(mine, [fs[i]], fs[i + 1..]);
    FilterAppend(mine, fs[..i], fs[i + 1..]);
    FilterSingle(mine, fs[i]);
  }

  lemma {:induction false} OrderIsKept(crypto: Crypto, set_: FixtureSet, steps: seq<Step>, c: nat)
    requires ReadsToEnd(crypto, set_, steps, c)
    ensures InOrder(After(crypto, set_, steps), c)
  {
    if steps != [] {
      var init, last := steps[..|steps| - 1], steps[|steps| - 1];
      var s := After(crypto, set_, init);
      ReadsToEndInit(crypto, set_, steps, c);
      OrderIsKept(crypto, set_, init, c);
      match last
      case Ask(d, http) =>
        if http.path != RECEIPT_PATH {
          var flight := FlightOf(crypto, set_, d, http);
          FilterSnoc((f: Flight) => f.client == c, s.asked, flight);
          FilterSnoc((f: Flight) => f.client == c, s.pending, flight);
          if d == c {
            InvAlways(crypto, set_, init);
            IdleHasNothingPending(s, c);
          }
        }
      case Complete(i) =>
        if i < |s.pending| {
          CompleteKeepsOrder(s, i, c);
        }
      case Finish(_) =>
      case Clear =>
      case Read(_, _) =>
    }
  }

  /* A client with a run id of its own that reads its answers to the end finds in the receipt, whenever it asks
     for it, every request it made since the last reset, in the order it made them. */
  lemma PatientReceiptIsWhole(crypto: Crypto, set_: FixtureSet, steps: seq<Step>, c: nat, run: string)
    requires run != "" && OwnsRun(steps, c, run)
    requires ReadsToEnd(crypto, set_, steps, c) && Idle(After(crypto, set_, steps), c)
    ensures var s := After(crypto, set_, steps);
            RunRequests(s.observed, run) == RequestsOf(ByClient(s.asked, c))
    ensures Clear !in steps ==>
              RunRequests(After(crypto, set_, steps).observed, run) ==
              Map((http: HttpRequest) => Serve(crypto, set_, http).0, AsksOf(steps, c))
  {
    DistinctRunsAreSeparate(crypto, set_, steps, c, run);
    InvAlways(crypto, set_, steps);
    IdleHasNothingPending(After(crypto, set_, steps), c);
    OrderIsKept(crypto, set_, steps, c);
    if Clear !in steps {
      AskedAreServed(crypto, set_, steps, c);
    }
  }

  /* A client that is cut off before the end of an answer may find the request missing: a receipt asked for
     before the handler has returned does not list it, and one asked for afterwards does. */
  lemma CutOffRequestIsMissed(crypto: Crypto, set_: FixtureSet, c: nat, http: HttpRequest)
    requires http.runId != "" && http.path != RECEIPT_PATH
    ensures var s := After(crypto, set_, [Ask(c, http)]);
            && |ByClient(s.asked, c)| == 1 && RunRequests(s.observed, http.runId) == [] && !Idle(s, c)
    ensures RunRequests(After(crypto, set_, [Ask(c, http), Complete(0)]).observed, http.runId) ==
            [Serve(crypto, set_, http).0]
  {
    var flight := FlightOf(crypto, set_, c, http);
    AskedAndCompleted(crypto, set_, c, http);
    FilterSingle((f: Flight) => f.client == c, flight);
    assert flight in After(crypto, set_, [Ask(c, http)]).unfinished;
  }
}
