/** Recommendations: created by evaluation, then approved, rejected or applied.
    Operations run one after another. */
module Lifecycle {
  import opened Wrappers
  import opened Text

  datatype Status = Pending | Approved | Rejected | Applied

  datatype Kind = Scale | Rollback | Migrate | Noop

  datatype Decision =
    | PendingReview | ApprovedByPolicy | RejectedByPolicy(reason: string)
    | ApprovedManually | RejectedManually | AppliedDecision

  /** What inference recommends; the suggested parameters as text. */
  datatype Output = Output(
    workload: string, kind: Kind, confidence: real, risk: real,
    reasonCode: string, explanation: string, parameters: string)

  datatype Audit = Audit(promptHash: string, modelVersion: string)

  /** A recommendation, with the snapshot it was made for. */
  datatype Rec = Rec(
    id: string, output: Output, snapshot: string, audit: Audit,
    status: Status, decision: Decision, createdAt: int, updatedAt: int)

  /** `format` prints a number with two decimals. */
  datatype Config = Config(gated: bool, minConfidence: real, maxRisk: real, format: real -> string)

  /** The store with the metrics kept beside it. */
  datatype State = State(records: map<string, Rec>, order: seq<string>, total: nat, applied: nat, rejected: nat)

  const EMPTY := State(map[], [], 0, 0, 0)

  function StatusName(s: Status): string {
    match s case Pending => "pending" case Approved => "approved" case Rejected => "rejected" case Applied => "applied"
  }

  predicate AllowedTransition(from: Status, to: Status) {
    match from
    case Pending => to == Approved || to == Rejected
    case Approved => to == Applied || to == Rejected
    case _ => false
  }

  predicate Terminal(s: Status) { s == Rejected || s == Applied }

  // --------------------------------------------------------------- the policy gate

  /** `None` when the gate lets the output through, else why not. */
  function PolicyRefusal(cfg: Config, o: Output): Option<string> {
    if o.confidence < cfg.minConfidence then
      Some("confidence " + cfg.format(o.confidence) + " < threshold " + cfg.format(cfg.minConfidence))
    else if o.risk > cfg.maxRisk then
      Some("risk " + cfg.format(o.risk) + " > threshold " + cfg.format(cfg.maxRisk))
    else if o.kind == Noop then Some("noop recommendation")
    else None
  }

  predicate MeetsGate(cfg: Config, o: Output) {
    o.confidence >= cfg.minConfidence && o.risk <= cfg.maxRisk && o.kind != Noop
  }

  function Triage(cfg: Config, o: Output): (Status, Decision) {
    if !cfg.gated then (Pending, PendingReview)
    else match PolicyRefusal(cfg, o)
      case None => (Approved, ApprovedByPolicy)
      case Some(why) => (Rejected, RejectedByPolicy(why))
  }

  /** The gate adds its verdict to the explanation. */
  function Explained(cfg: Config, o: Output): (r: Output)
    ensures r == o.(explanation := r.explanation) && (!cfg.gated ==> r == o)
  {
    if !cfg.gated then o
    else match PolicyRefusal(cfg, o)
      case None => o.(explanation := TrimSpace(o.explanation + " Policy gate: approved."))
      case Some(why) => o.(explanation := TrimSpace(o.explanation + " Policy gate: rejected - " + why + "."))
  }

  // -------------------------------------------------------------------- operations

  /** What inference answers for one snapshot; a created record gets `id` and `now`. */
  datatype Inference = Inferred(output: Output, audit: Audit) | Unavailable | Broken

  datatype Item = Item(snapshot: string, inference: Inference, id: string, now: int)

  function NewRec(cfg: Config, item: Item): Rec
    requires item.inference.Inferred?
  {
    var o := item.inference.output;
    var (status, decision) := Triage(cfg, o);
    Rec(item.id, Explained(cfg, o), item.snapshot, item.inference.audit, status, decision, item.now, item.now)
  }

  function AfterCreate(cfg: Config, st: State, item: Item): State
    requires item.inference.Inferred?
  {
    var r := NewRec(cfg, item);
    State(st.records[item.id := r], st.order + [item.id], st.total + 1, st.applied,
          st.rejected + if r.status == Rejected then 1 else 0)
  }

  datatype Target = ToApproved | ToRejected | ToApplied

  function TargetStatus(t: Target): Status {
    match t case ToApproved => Approved case ToRejected => Rejected case ToApplied => Applied
  }

  function TargetDecision(t: Target): Decision {
    match t case ToApproved => ApprovedManually case ToRejected => RejectedManually case ToApplied => AppliedDecision
  }

  predicate CanMove(st: State, id: string, t: Target) {
    id in st.records && AllowedTransition(st.records[id].status, TargetStatus(t))
  }

  /** The status change, the metric, then the decision; `now` is the later time. */
  function AfterMove(st: State, id: string, t: Target, now: int): State {
    if !CanMove(st, id, t) then st
    else
      var r := st.records[id].(status := TargetStatus(t), decision := TargetDecision(t), updatedAt := now);
      st.(records := st.records[id := r],
          applied := st.applied + if t.ToApplied? then 1 else 0,
          rejected := st.rejected + if t.ToRejected? then 1 else 0)
  }

  function AfterItem(cfg: Config, st: State, item: Item): State {
    if item.inference.Inferred? then AfterCreate(cfg, st, item) else st
  }

  function AfterItems(cfg: Config, st: State, items: seq<Item>): State {
    if items == [] then st
    else
      AfterItem(cfg, AfterItems(cfg, st, items[..|items| - 1]), items[|items| - 1])
  }

  /** What an evaluation answers: the created records and how inference went. */
  datatype Evaluation = Evaluated(recs: seq<Rec>, status: string) | ExtractionFailed

  datatype MoveError = NotFound | InvalidTransition

  datatype MoveResult = Moved(rec: Rec) | MoveFailed(error: MoveError)

  /** The record store. */
  class Store {
    var records: map<string, Rec>
    var order: seq<string>

    constructor ()
      ensures records == map[] && order == []
    {
      records, order := map[], [];
    }

    method Create(rec: Rec, id: string, now: int) returns (r: Rec)
      modifies this
      ensures r == rec.(id := id, createdAt := now, updatedAt := now)
      ensures records == old(records)[id := r] && order == old(order) + [id]
    {
      r := rec.(id := id, createdAt := now, updatedAt := now);
      records, order := records[id := r], order + [id];
    }

    method UpdateStatus(id: string, to: Status, now: int) returns (r: MoveResult)
      modifies this`records
      ensures r == if id !in old(records) then MoveFailed(NotFound)
                   else if !AllowedTransition(old(records)[id].status, to) then MoveFailed(InvalidTransition)
                   else Moved(old(records)[id].(status := to, updatedAt := now))
      ensures records == if r.Moved? then old(records)[id := r.rec] else old(records)
    {
      if id !in records { return MoveFailed(NotFound); }
      var rec := records[id];
      if !AllowedTransition(rec.status, to) { return MoveFailed(InvalidTransition); }
      rec := rec.(status := to, updatedAt := now);
      records := records[id := rec];
      return Moved(rec);
    }

    method Replace(rec: Rec, now: int) returns (r: MoveResult)
      modifies this`records
      ensures r == if rec.id in old(records) then Moved(rec.(updatedAt := now)) else MoveFailed(NotFound)
      ensures records == if r.Moved? then old(records)[rec.id := r.rec] else old(records)
    {
      if rec.id !in records { return MoveFailed(NotFound); }
      records := records[rec.id := rec.(updatedAt := now)];
      return Moved(rec.(updatedAt := now));
    }

    /** Newest first; an empty filter matches everything. */
    method List(status: string, workload: string) returns (out: seq<Rec>)
      requires forall id :: id in order ==> id in records
      ensures out == Listing(records, order, status, workload)
    {
      out := [];
      var i := |order|;
      assert order[..i] == order;
      ghost var all := Listing(records, order, status, workload);
      assert out + all == all;
      while i > 0
        invariant 0 <= i <= |order|
        invariant out + Listing(records, order[..i], status, workload) == all
      {
        ghost var rest := Listing(records, order[..i - 1], status, workload);
        assert order[..i][..i - 1] == order[..i - 1];
        i := i - 1;
        var rec := records[order[i]];
        if Matches(rec, status, workload) {
          assert out + ([rec] + rest) == (out + [rec]) + rest;
          out := out + [rec];
        } else {
          assert [] + rest == rest;
        }
      }
    }
  }

  predicate Matches(r: Rec, status: string, workload: string) {
    (status == "" || StatusName(r.status) == status) && (workload == "" || r.output.workload == workload)
  }

  function Listing(records: map<string, Rec>, order: seq<string>, status: string, workload: string): seq<Rec>
    requires forall id :: id in order ==> id in records
  {
    if order == [] then []
    else
      var r := records[order[|order| - 1]];
      (if Matches(r, status, workload) then [r] else []) + Listing(records, order[..|order| - 1], status, workload)
  }

  /** A listing holds exactly the matching records. */
  lemma {:induction false} ListingExact(records: map<string, Rec>, order: seq<string>, status: string,
                                        workload: string, r: Rec)
    requires forall id :: id in order ==> id in records
    ensures r in Listing(records, order, status, workload) <==>
            Matches(r, status, workload) && exists id :: id in order && records[id] == r
  {
    if order != [] {
      var init, last := order[..|order| - 1], order[|order| - 1];
      assert order == init + [last];
      ListingExact(records, init, status, workload, r);
      assert (exists id :: id in order && records[id] == r) <==>
        records[last] == r || exists id :: id in init && records[id] == r;
    }
  }

  class Service {
    const cfg: Config
    const store: Store
    var total: nat
    var applied: nat
    var rejected: nat

    constructor (cfg: Config)
      ensures this.cfg == cfg && fresh(store) && View() == EMPTY
    {
      this.cfg := cfg;
      store := new Store();
      total, applied, rejected := 0, 0, 0;
    }

    ghost function View(): State
      reads this, store
    {
      State(store.records, store.order, total, applied, rejected)
    }

    /** Evaluates the given snapshots or, when there are none, the ones extraction
        finds; a failed extraction changes nothing. */
    method Evaluate(given: seq<Item>, extracted: Option<seq<Item>>) returns (r: Evaluation)
      modifies this, store
      ensures r.ExtractionFailed? <==> given == [] && extracted.None?
      ensures r.ExtractionFailed? ==> View() == old(View())
      ensures r.Evaluated? ==>
        var items := if given == [] then extracted.value else given;
        && View() == AfterItems(cfg, old(View()), items)
        && r.recs == CreatedBy(cfg, items) && |r.recs| == CountItems(items, true, false)
        && r.status == InferenceStatus(|r.recs|, CountItems(items, false, true), CountItems(items, false, false))
    {
      if given == [] && extracted.None? { return ExtractionFailed; }
      var items := if given == [] then extracted.value else given;
      var recs: seq<Rec> := [];
      var unavailable, failed := 0, 0;
      for n := 0 to |items|
        invariant View() == AfterItems(cfg, old(View()), items[..n])
        invariant recs == CreatedBy(cfg, items[..n]) && |recs| == CountItems(items[..n], true, false)
        invariant unavailable == CountItems(items[..n], false, true)
        invariant failed == CountItems(items[..n], false, false)
      {
        assert items[..n + 1][..n] == items[..n];
        var rec := EvaluateOne(items[n]);
        match items[n].inference
        case Unavailable => unavailable := unavailable + 1;
        case Broken => failed := failed + 1;
        case Inferred(_, _) => recs := recs + [rec.value];
      }
      assert items[..|items|] == items;
      var status := SummariseInference(|recs|, unavailable, failed);
      return Evaluated(recs, status);
    }

    /** Creates the record of one snapshot, if there is an inference for it. */
    method EvaluateOne(item: Item) returns (r: Option<Rec>)
      modifies this, store
      ensures View() == AfterItem(cfg, old(View()), item)
      ensures r == if item.inference.Inferred? then Some(NewRec(cfg, item)) else None
    {
      if !item.inference.Inferred? { return None; }
      var rec := Gate(item);
      rec := store.Create(rec, item.id, item.now);
      total := total + 1;
      return Some(rec);
    }

    /** The record to create for one inference, after the policy gate. */
    method Gate(item: Item) returns (rec: Rec)
      requires item.inference.Inferred?
      modifies this`rejected
      ensures rec.(id := item.id, createdAt := item.now, updatedAt := item.now) == NewRec(cfg, item)
      ensures rejected == old(rejected) + if NewRec(cfg, item).status == Rejected then 1 else 0
    {
      var out := item.inference.output;
      var status, decision, explanation := Pending, PendingReview, out.explanation;
      if cfg.gated {
        match PolicyRefusal(cfg, out)
        case None =>
          status, decision := Approved, ApprovedByPolicy;
          explanation := TrimSpace(explanation + " Policy gate: approved.");
        case Some(why) =>
          status, decision := Rejected, RejectedByPolicy(why);
          explanation := TrimSpace(explanation + " Policy gate: rejected - " + why + ".");
          rejected := rejected + 1;
      }
      rec := Rec("", out.(explanation := explanation), item.snapshot, item.inference.audit, status, decision, 0, 0);
    }

    static method SummariseInference(generated: nat, unavailable: nat, failed: nat) returns (status: string)
      ensures status == InferenceStatus(generated, unavailable, failed)
    {
      status := "ok";
      if generated == 0 && unavailable > 0 && failed == 0 { status := "unavailable"; }
      else if generated > 0 && (unavailable > 0 || failed > 0) { status := "partial"; }
      else if generated == 0 && failed > 0 { status := "degraded"; }
    }

    /** Approve, reject and apply: `t1` and `t2` are the times of the two writes. */
    method Move(id: string, t: Target, t1: int, t2: int) returns (r: MoveResult)
      requires forall k :: k in store.records ==> store.records[k].id == k
      modifies this, store
      ensures View() == AfterMove(old(View()), id, t, t2)
      ensures r.Moved? <==> CanMove(old(View()), id, t)
      ensures r.Moved? ==> r.rec == store.records[id]
      ensures r == MoveFailed(NotFound) <==> id !in old(store.records)
    {
      r := store.UpdateStatus(id, TargetStatus(t), t1);
      if r.MoveFailed? { return; }
      if t.ToRejected? { rejected := rejected + 1; }
      if t.ToApplied? { applied := applied + 1; }
      r := store.Replace(r.rec.(decision := TargetDecision(t)), t2);
    }
  }

  /** The records a batch creates, in the order of its snapshots. */
  function CreatedBy(cfg: Config, items: seq<Item>): seq<Rec> {
    if items == [] then []
    else
      var last := items[|items| - 1];
      CreatedBy(cfg, items[..|items| - 1]) +
      if last.inference.Inferred? then [NewRec(cfg, last)] else []
  }

  /** How many items were inferred, unavailable or broken. */
  function CountItems(items: seq<Item>, inferred: bool, unavailable: bool): (n: nat)
    ensures n <= |items|
  {
    if items == [] then 0
    else
      var last := items[|items| - 1].inference;
      CountItems(items[..|items| - 1], inferred, unavailable) +
      if last.Inferred? == inferred && (inferred || last.Unavailable? == unavailable) then 1 else 0
  }

  function InferenceStatus(generated: nat, unavailable: nat, failed: nat): string {
    if generated == 0 && unavailable > 0 && failed == 0 then "unavailable"
    else if generated > 0 && (unavailable > 0 || failed > 0) then "partial"
    else if generated == 0 && failed > 0 then "degraded"
    else "ok"
  }

  /** Every snapshot is accounted for once. */
  lemma {:induction false} ItemsPartition(items: seq<Item>)
    ensures CountItems(items, true, false) + CountItems(items, false, true) + CountItems(items, false, false) == |items|
  {
    if items != [] { ItemsPartition(items[..|items| - 1]); }
  }

  // -------------------------------------------------- each operation in plain words

  /** From each status exactly the listed moves succeed; a move sets status,
      decision, update time and its metric, a refused one changes nothing. */
  lemma MoveExact(st: State, id: string, t: Target, now: int)
    ensures id !in st.records ==> AfterMove(st, id, t, now) == st
    ensures id in st.records ==>
      var r, st' := st.records[id], AfterMove(st, id, t, now);
      var allowed := (r.status == Pending && (t == ToApproved || t == ToRejected)) ||
                     (r.status == Approved && (t == ToApplied || t == ToRejected));
      if !allowed then st' == st
      else
        && st'.records.Keys == st.records.Keys && st'.order == st.order && st'.total == st.total
        && (forall k :: k in st.records && k != id ==> st'.records[k] == st.records[k])
        && (t == ToApproved ==>
              st'.records[id] == r.(status := Approved, decision := ApprovedManually, updatedAt := now))
        && (t == ToRejected ==>
              st'.records[id] == r.(status := Rejected, decision := RejectedManually, updatedAt := now))
        && (t == ToApplied ==>
              st'.records[id] == r.(status := Applied, decision := AppliedDecision, updatedAt := now))
        && st'.applied == st.applied + (if t == ToApplied then 1 else 0)
        && st'.rejected == st.rejected + (if t == ToRejected then 1 else 0)
  {
  }

  /** The gate's verdict names the first condition that is not met. */
  lemma RefusalExact(cfg: Config, o: Output)
    ensures PolicyRefusal(cfg, o) == None <==>
            o.confidence >= cfg.minConfidence && o.risk <= cfg.maxRisk && o.kind != Noop
    ensures o.confidence < cfg.minConfidence ==>
      var why := "confidence " + cfg.format(o.confidence) + " < threshold " + cfg.format(cfg.minConfidence);
      PolicyRefusal(cfg, o) == Some(why)
    ensures o.confidence >= cfg.minConfidence && o.risk > cfg.maxRisk ==>
      var why := "risk " + cfg.format(o.risk) + " > threshold " + cfg.format(cfg.maxRisk);
      PolicyRefusal(cfg, o) == Some(why)
    ensures o.confidence >= cfg.minConfidence && o.risk <= cfg.maxRisk && o.kind == Noop ==>
      PolicyRefusal(cfg, o) == Some("noop recommendation")
  {
  }

  /** A new record: without the gate it waits for review as inferred; with it, it is
      approved or rejected and says so. */
  lemma NewRecExact(cfg: Config, item: Item)
    requires item.inference.Inferred?
    ensures
      var r, o := NewRec(cfg, item), item.inference.output;
      && r.id == item.id && r.snapshot == item.snapshot && r.audit == item.inference.audit
      && r.createdAt == item.now == r.updatedAt
      && r.output == o.(explanation := r.output.explanation)
      && (!cfg.gated ==>
            r.status == Pending && r.decision == PendingReview && r.output.explanation == o.explanation)
      && (cfg.gated && MeetsGate(cfg, o) ==>
            && r.status == Approved && r.decision == ApprovedByPolicy
            && r.output.explanation == TrimSpace(o.explanation + " Policy gate: approved."))
      && (cfg.gated && !MeetsGate(cfg, o) ==>
            && r.status == Rejected && r.decision.RejectedByPolicy?
            && PolicyRefusal(cfg, o) == Some(r.decision.reason)
            && r.output.explanation ==
               TrimSpace(o.explanation + " Policy gate: rejected - " + r.decision.reason + "."))
  {
    RefusalExact(cfg, item.inference.output);
  }

  /** Each snapshot is counted under what inference answered. */
  lemma CountsExact(items: seq<Item>, x: Item)
    ensures CountItems(items + [x], true, false) ==
            CountItems(items, true, false) + if x.inference.Inferred? then 1 else 0
    ensures CountItems(items + [x], false, true) ==
            CountItems(items, false, true) + if x.inference.Unavailable? then 1 else 0
    ensures CountItems(items + [x], false, false) ==
            CountItems(items, false, false) + if x.inference.Broken? then 1 else 0
    ensures CountItems([], true, false) == CountItems([], false, true) == CountItems([], false, false) == 0
  {
    assert (items + [x])[..|items|] == items;
  }

  lemma InferenceStatusExact(generated: nat, unavailable: nat, failed: nat)
    ensures
      var s := InferenceStatus(generated, unavailable, failed);
      && (unavailable == 0 && failed == 0 ==> s == "ok")
      && (generated > 0 && unavailable + failed > 0 ==> s == "partial")
      && (generated == 0 && failed > 0 ==> s == "degraded")
      && (generated == 0 && failed == 0 && unavailable > 0 ==> s == "unavailable")
  {
  }

  lemma StatusWords(r: Rec)
    ensures Matches(r, "", "") && Matches(r, "pending", "") == (r.status == Pending)
    ensures Matches(r, "approved", "") == (r.status == Approved)
    ensures Matches(r, "rejected", "") == (r.status == Rejected)
    ensures Matches(r, "applied", "") == (r.status == Applied)
    ensures forall w :: w != "" ==> (Matches(r, "", w) <==> r.output.workload == w)
  {
    assert "pending"[0] == 'p' && "rejected"[0] == 'r';
    assert "approved"[3] == 'r' && "applied"[3] == 'l';
  }

  /** Entry `i` of a listing is the matching record created at place `pos[i]`, from
      the newest to the oldest. */
  ghost predicate NewestFirst(records: map<string, Rec>, order: seq<string>, status: string, workload: string,
                              l: seq<Rec>, pos: seq<nat>)
    requires forall id :: id in order ==> id in records
  {
    && |pos| == |l| && (forall i, j :: 0 <= i < j < |pos| ==> pos[i] > pos[j])
    && forall i :: 0 <= i < |pos| ==> pos[i] < |order| && l[i] == records[order[pos[i]]]
  }

  lemma NewestFirstStep(records: map<string, Rec>, init: seq<string>, id: string, status: string, workload: string,
                        l: seq<Rec>, pos: seq<nat>)
    requires id in records && forall k :: k in init ==> k in records
    requires NewestFirst(records, init, status, workload, l, pos)
    ensures forall k :: k in init + [id] ==> k in records
    ensures NewestFirst(records, init + [id], status, workload, l, pos)
    ensures NewestFirst(records, init + [id], status, workload, [records[id]] + l, [|init|] + pos)
  {
    assert forall p :: 0 <= p < |init| ==> (init + [id])[p] == init[p];
  }

  /** With `ListingExact`: a listing runs through exactly the matching records, from
      the newest to the oldest. */
  lemma {:induction false} ListingNewestFirst(records: map<string, Rec>, order: seq<string>, status: string,
                                              workload: string) returns (pos: seq<nat>)
    requires forall id :: id in order ==> id in records
    ensures NewestFirst(records, order, status, workload, Listing(records, order, status, workload), pos)
  {
    pos := [];
    if order != [] {
      var n := |order| - 1;
      var init, id := order[..n], order[n];
      assert order == init + [id];
      pos := ListingNewestFirst(records, init, status, workload);
      NewestFirstStep(records, init, id, status, workload, Listing(records, init, status, workload), pos);
      if Matches(records[id], status, workload) {
        pos := [n] + pos;
      } else {
        assert [] + Listing(records, init, status, workload) == Listing(records, init, status, workload);
      }
    }
  }

  // --------------------------------------------------------------------- invariant

  ghost predicate NoRepeats(order: seq<string>) {
    forall i, j :: 0 <= i < j < |order| ==> order[i] != order[j]
  }

  /** How many of the listed records have this status. */
  ghost function Count(records: map<string, Rec>, order: seq<string>, s: Status): nat {
    if order == [] then 0
    else
      Count(records, order[..|order| - 1], s) +
      var id := order[|order| - 1];
      if id in records && records[id].status == s then 1 else 0
  }

  ghost predicate DecisionAgrees(cfg: Config, r: Rec) {
    match r.status
    case Pending => r.decision == PendingReview
    case Approved => r.decision == ApprovedManually || (r.decision == ApprovedByPolicy && MeetsGate(cfg, r.output))
    case Rejected => r.decision == RejectedManually || (r.decision.RejectedByPolicy? && !MeetsGate(cfg, r.output))
    case Applied => r.decision == AppliedDecision
  }

  /** Under the policy gate nothing waits for review, and only what meets the
      gate is ever approved or applied. */
  ghost predicate GateRespected(cfg: Config, r: Rec) {
    cfg.gated ==> r.status != Pending && (r.status == Approved || r.status == Applied ==> MeetsGate(cfg, r.output))
  }

  ghost predicate RecOk(cfg: Config, id: string, r: Rec) {
    r.id == id && DecisionAgrees(cfg, r) && GateRespected(cfg, r)
  }

  ghost predicate Inv(cfg: Config, st: State) {
    && NoRepeats(st.order)
    && (forall id :: id in st.order <==> id in st.records)
    && (forall id :: id in st.records ==> RecOk(cfg, id, st.records[id]))
    && st.total == |st.order|
    && st.applied == Count(st.records, st.order, Applied)
    && st.rejected == Count(st.records, st.order, Rejected)
  }

  lemma {:induction false} CountSame(records: map<string, Rec>, records': map<string, Rec>, order: seq<string>,
                                     s: Status)
    requires forall i :: 0 <= i < |order| ==>
      (order[i] in records <==> order[i] in records') &&
        (order[i] in records ==> records[order[i]].status == records'[order[i]].status)
    ensures Count(records, order, s) == Count(records', order, s)
  {
    if order != [] { CountSame(records, records', order[..|order| - 1], s); }
  }

  function Has(r: Rec, s: Status): int { if r.status == s then 1 else 0 }

  lemma {:induction false} CountChange(records: map<string, Rec>, order: seq<string>, id: string, r: Rec, s: Status)
    requires NoRepeats(order) && id in order && id in records
    ensures Count(records[id := r], order, s) == Count(records, order, s) - Has(records[id], s) + Has(r, s)
  {
    var init, last := order[..|order| - 1], order[|order| - 1];
    if last == id {
      CountSame(records, records[id := r], init, s);
    } else {
      assert id in init;
      CountChange(records, init, id, r, s);
    }
  }

  lemma CountNew(records: map<string, Rec>, order: seq<string>, id: string, r: Rec, s: Status)
    requires id !in order
    ensures Count(records[id := r], order + [id], s) == Count(records, order, s) + Has(r, s)
  {
    assert (order + [id])[..|order|] == order;
    CountSame(records, records[id := r], order, s);
  }

  lemma CreateInv(cfg: Config, st: State, item: Item)
    requires Inv(cfg, st) && item.inference.Inferred? && item.id !in st.records
    ensures Inv(cfg, AfterCreate(cfg, st, item))
  {
    var r, id := NewRec(cfg, item), item.id;
    NewRecOk(cfg, item);
    CountNew(st.records, st.order, id, r, Applied);
    CountNew(st.records, st.order, id, r, Rejected);
    var st' := AfterCreate(cfg, st, item);
    assert NoRepeats(st'.order) && forall k :: k in st'.order <==> k in st'.records;
    forall k | k in st'.records ensures RecOk(cfg, k, st'.records[k]) {
      if k != id { assert st'.records[k] == st.records[k]; }
    }
  }

  lemma NewRecOk(cfg: Config, item: Item)
    requires item.inference.Inferred?
    ensures RecOk(cfg, item.id, NewRec(cfg, item)) && NewRec(cfg, item).status != Applied
  {
  }

  lemma MoveInv(cfg: Config, st: State, id: string, t: Target, now: int)
    requires Inv(cfg, st)
    ensures Inv(cfg, AfterMove(st, id, t, now))
  {
    if CanMove(st, id, t) {
      var r := st.records[id].(status := TargetStatus(t), decision := TargetDecision(t), updatedAt := now);
      assert RecOk(cfg, id, st.records[id]);
      assert RecOk(cfg, id, r);
      CountChange(st.records, st.order, id, r, Applied);
      CountChange(st.records, st.order, id, r, Rejected);
    }
  }

  // -------------------------------------------------------------------------- runs

  datatype Op = Evaluate(items: seq<Item>) | Move(id: string, target: Target, now: int)

  function Perform(cfg: Config, st: State, op: Op): State {
    match op
    case Evaluate(items) => AfterItems(cfg, st, items)
    case Move(id, target, now) => AfterMove(st, id, target, now)
  }

  /** New records get IDs that are not in use. */
  ghost predicate FreshIds(cfg: Config, st: State, op: Op) {
    op.Evaluate? ==> forall n: nat :: n < |op.items| && op.items[n].inference.Inferred? ==>
      op.items[n].id !in AfterItems(cfg, st, op.items[..n]).records
  }

  ghost predicate IsRun(cfg: Config, ops: seq<Op>, states: seq<State>) {
    && |states| == |ops| + 1 && states[0] == EMPTY
    && forall j :: 0 <= j < |ops| ==>
         FreshIds(cfg, states[j], ops[j]) && states[j + 1] == Perform(cfg, states[j], ops[j])
  }

  /** Old records survive an evaluation unchanged, and new ones are never applied. */
  lemma {:induction false} ItemsInv(cfg: Config, st: State, items: seq<Item>)
    requires Inv(cfg, st) && FreshIds(cfg, st, Evaluate(items))
    ensures
      var st' := AfterItems(cfg, st, items);
      && Inv(cfg, st')
      && (forall id :: id in st.records ==> id in st'.records && st'.records[id] == st.records[id])
      && (forall id :: id in st'.records && id !in st.records ==> st'.records[id].status != Applied)
  {
    if items != [] {
      var k := |items| - 1;
      var init, last := items[..k], items[k];
      FreshPrefix(cfg, st, items);
      ItemsInv(cfg, st, init);
      if last.inference.Inferred? {
        CreateInv(cfg, AfterItems(cfg, st, init), last);
      }
    }
  }

  /** The records an evaluation returns are in the store as returned. */
  lemma {:induction false} CreatedAreStored(cfg: Config, st: State, items: seq<Item>, r: Rec)
    requires FreshIds(cfg, st, Evaluate(items)) && r in CreatedBy(cfg, items)
    ensures
      var st' := AfterItems(cfg, st, items);
      r.id in st'.records && st'.records[r.id] == r && r.id in st'.order
  {
    var k := |items| - 1;
    var init, last := items[..k], items[k];
    if r in CreatedBy(cfg, init) {
      FreshPrefix(cfg, st, items);
      CreatedAreStored(cfg, st, init, r);
      assert last.inference.Inferred? ==> last.id !in AfterItems(cfg, st, items[..k]).records;
    }
  }

  lemma FreshPrefix(cfg: Config, st: State, items: seq<Item>)
    requires items != [] && FreshIds(cfg, st, Evaluate(items))
    ensures FreshIds(cfg, st, Evaluate(items[..|items| - 1]))
  {
    var init := items[..|items| - 1];
    forall n: nat | n < |init| && init[n].inference.Inferred?
      ensures init[n].id !in AfterItems(cfg, st, init[..n]).records
    {
      assert init[..n] == items[..n] && init[n] == items[n];
    }
  }

  lemma {:induction false} RunInv(cfg: Config, ops: seq<Op>, states: seq<State>, n: nat)
    requires IsRun(cfg, ops, states) && n <= |ops|
    ensures Inv(cfg, states[n])
  {
    if n > 0 {
      RunInv(cfg, ops, states, n - 1);
      assert states[n] == Perform(cfg, states[n - 1], ops[n - 1]) && FreshIds(cfg, states[n - 1], ops[n - 1]);
      match ops[n - 1]
      case Evaluate(items) => ItemsInv(cfg, states[n - 1], items);
      case Move(id, t, now) => MoveInv(cfg, states[n - 1], id, t, now);
    }
  }

  /** In every run the metrics are the record counts, every record's decision
      agrees with its status, and under the policy gate nothing that fails it is
      ever approved or applied. */
  lemma CountersAndDecisionsAgree(cfg: Config, ops: seq<Op>, states: seq<State>, n: nat)
    requires IsRun(cfg, ops, states) && n <= |ops|
    ensures
      var st := states[n];
      && NoRepeats(st.order) && (forall id :: id in st.order <==> id in st.records)
      && st.total == |st.order|
      && st.applied == Count(st.records, st.order, Applied)
      && st.rejected == Count(st.records, st.order, Rejected)
      && forall id :: id in st.records ==> DecisionAgrees(cfg, st.records[id]) && GateRespected(cfg, st.records[id])
  {
    RunInv(cfg, ops, states, n);
  }

  lemma StepKeeps(cfg: Config, ops: seq<Op>, states: seq<State>, n: nat, id: string)
    requires IsRun(cfg, ops, states) && n < |ops|
    ensures id in states[n].records ==> id in states[n + 1].records
    ensures id in states[n].records && Terminal(states[n].records[id].status) ==>
      states[n + 1].records[id] == states[n].records[id]
    ensures id in states[n + 1].records && states[n + 1].records[id].status == Applied ==>
            id in states[n].records &&
              (states[n].records[id].status == Applied || states[n].records[id].status == Approved)
  {
    RunInv(cfg, ops, states, n);
    assert states[n + 1] == Perform(cfg, states[n], ops[n]) && FreshIds(cfg, states[n], ops[n]);
    if ops[n].Evaluate? { ItemsInv(cfg, states[n], ops[n].items); }
  }

  /** Rejected and applied are final: the record never changes again. */
  lemma {:induction false} TerminalIsFinal(cfg: Config, ops: seq<Op>, states: seq<State>, i: nat, n: nat, id: string)
    requires IsRun(cfg, ops, states) && i <= n <= |ops|
    requires id in states[i].records && Terminal(states[i].records[id].status)
    ensures id in states[n].records && states[n].records[id] == states[i].records[id]
  {
    if i < n {
      TerminalIsFinal(cfg, ops, states, i, n - 1, id);
      StepKeeps(cfg, ops, states, n - 1, id);
    }
  }

  /** Nothing is applied that was not approved at some earlier point. */
  lemma {:induction false} AppliedWasApproved(cfg: Config, ops: seq<Op>, states: seq<State>, n: nat, id: string)
    returns (i: nat)
    requires IsRun(cfg, ops, states) && n <= |ops|
    requires id in states[n].records && states[n].records[id].status == Applied
    ensures i < n && id in states[i].records && states[i].records[id].status == Approved
  {
    StepKeeps(cfg, ops, states, n - 1, id);
    i := n - 1;
    if states[n - 1].records[id].status == Applied { i := AppliedWasApproved(cfg, ops, states, n - 1, id); }
  }
}
