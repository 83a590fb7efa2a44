/** What reports and checks say of the ledger they were made from, over its entries themselves. */
module LedgerReports {
  import opened Wrappers
  import opened Words
  import opened Health
  import opened ScVals
  import opened Inspect
  import opened Check
  import opened Batch
  import opened Replay
  import opened Refinement

  type Ledger = map<LedgerKey, LedgerEntry>

  function On(ledger: Ledger, key: LedgerKey): Option<LedgerEntry> {
    if key in ledger then Some(ledger[key]) else None
  }

  function InstanceOn(ledger: Ledger, contract: string): Option<LedgerEntry> {
    On(ledger, ContractData(contract, LedgerKeyContractInstance, false))
  }

  function DataOn(ledger: Ledger, contract: string, key: ScVal, asked: string): Option<LedgerEntry> {
    On(ledger, ContractData(contract, key, asked == "temporary"))
  }

  /** The code that the instance runs, when it is a Wasm contract. */
  function HashIn(instance: LedgerEntry): Option<string> {
    if instance.data.Instance? && instance.data.executable.WasmCode? then instance.data.executable.hash else None
  }

  // ---- one entry ------------------------------------------------------------------------------

  /** The status of an entry that lives until the given ledger, at the current one. */
  predicate StatusFits(status: Status, last: uint32, latest: uint32, t: Thresholds) {
    && (status == Expired <==> last < latest)
    && (status == Critical <==> latest <= last <= latest + t.critical)
    && (status == Warning <==> latest + t.critical < last && latest <= last <= latest + t.warn)
    && (status == Healthy <==> latest <= last && latest + t.critical < last && latest + t.warn < last)
  }

  /** The report of an entry that may not be on the ledger. */
  predicate Tells(report: EntryReport, kind: string, spec: string, entry: Option<LedgerEntry>, latest: uint32,
                  durability: string)
  {
    var ttl := report.ttl;
    && report.kind == kind && report.key == spec
    && ttl.currentLedger == latest
    && ttl.present == entry.Some?
    && if entry.None? then ttl.liveUntil == None && ttl.ledgersRemaining == 0 && ttl.status == Missing
       else
         && ttl.liveUntil == entry.value.liveUntil && ttl.durability == durability
         && if ttl.liveUntil.None? then ttl.ledgersRemaining == 0 && ttl.status == Unknown
            else
              && ttl.ledgersRemaining == ttl.liveUntil.value - latest
              && StatusFits(ttl.status, ttl.liveUntil.value, latest, report.thresholds)
  }

  /** Each threshold is the one set for the kind of entry, or the common one when none is. */
  predicate Governs(t: Thresholds, common: Thresholds, own: Option<ThresholdOverride>) {
    && t.warn == (if own.Some? && own.value.warn.Some? then own.value.warn.value else common.warn)
    && t.critical == (if own.Some? && own.value.critical.Some? then own.value.critical.value else common.critical)
  }

  // ---- a whole report --------------------------------------------------------------------------

  function AskedDurability(req: InspectRequest): string {
    if req.dataDurability == "" then "persistent" else req.dataDurability
  }

  predicate FirstBadKey(p: Prober, specs: seq<string>, i: nat) {
    i < |specs| && p.encode(specs[i]).Err? && forall j | 0 <= j < i :: p.encode(specs[j]).Ok?
  }

  predicate AllKeysEncode(p: Prober, specs: seq<string>) {
    forall i | 0 <= i < |specs| :: p.encode(specs[i]).Ok?
  }

  /** Nothing is on the ledger under the contract's instance key. */
  predicate TellsUndeployed(p: Prober, req: InspectRequest, latest: uint32, r: InspectResult) {
    && !r.deployed && r.contractId == req.contractId && r.latestLedger == latest && r.closeTimeNote == p.closeTimeNote
    && Tells(r.instance, "instance", "", None, latest, "persistent")
    && Governs(r.instance.thresholds, p.thresholds, p.overrides.forInstance)
    && r.code.None? && r.data == [] && r.estimates == [] && r.storage.None? && r.wasmHash.None? && r.executable == ""
    && r.status == Missing
  }

  predicate TellsInstance(p: Prober, instance: LedgerEntry, latest: uint32, r: InspectResult)
    requires instance.data.Instance?
  {
    var x, storage := instance.data.executable, instance.data.storage;
    && Tells(r.instance, "instance", "", Some(instance), latest, "persistent")
    && Governs(r.instance.thresholds, p.thresholds, p.overrides.forInstance)
    && r.executable == (if x.WasmCode? then "wasm" else if x.StellarAsset? then "stellar_asset" else x.name)
    && r.wasmHash == HashIn(instance)
    && (r.storage.Some? <==> storage.Some?)
    && (storage.Some? ==> r.storage == Some(p.decode(Map(storage.value))))
  }

  /** There is a code part exactly for a Wasm contract, and it tells of the code entry. */
  predicate TellsCode(p: Prober, instance: LedgerEntry, ledger: Ledger, latest: uint32, code: Option<EntryReport>) {
    && (code.Some? <==> HashIn(instance).Some?)
    && (code.Some? ==>
          && Tells(code.value, "code", "", On(ledger, ContractCode(HashIn(instance).value)), latest, "persistent")
          && Governs(code.value.thresholds, p.thresholds, p.overrides.forCode))
  }

  /** One part for every key asked for, in order. */
  predicate TellsData(p: Prober, req: InspectRequest, contract: string, ledger: Ledger, latest: uint32,
                      data: seq<EntryReport>)
    requires AllKeysEncode(p, req.dataKeys)
  {
    && |data| == |req.dataKeys|
    && forall i | 0 <= i < |data| ::
         && Tells(data[i], "data", req.dataKeys[i],
                  DataOn(ledger, contract, p.encode(req.dataKeys[i]).value, AskedDurability(req)), latest,
                  AskedDurability(req))
         && data[i].ttl.durability == AskedDurability(req)
         && Governs(data[i].thresholds, p.thresholds, p.overrides.forData)
  }

  /** Some part of the report has the status. */
  predicate Has(r: InspectResult, s: Status) {
    || r.instance.ttl.status == s
    || (r.code.Some? && r.code.value.ttl.status == s)
    || exists i | 0 <= i < |r.data| :: r.data[i].ttl.status == s
  }

  /** The worst that there is: missing, expired, critical, a warning, unknown, or all healthy. */
  function WorstIn(r: InspectResult): Status {
    if Has(r, Missing) then Missing
    else if Has(r, Expired) then Expired
    else if Has(r, Critical) then Critical
    else if Has(r, Warning) then Warning
    else if Has(r, Unknown) then Unknown
    else Healthy
  }

  /** The estimates are what the prober answers for this contract and this report, and there are none unless asked
      for. */
  ghost predicate TellsEstimates(p: Prober, req: InspectRequest, contract: string, r: InspectResult) {
    if req.estimateExtend == 0 then r.estimates == []
    else
      exists plan: InspectPlan :: plan.contract == contract
        && p.estimate(plan, r.(estimates := [], status := Healthy), req.estimateExtend) == Ok(r.estimates)
  }

  /** All that an inspection returns, over the ledger. */
  ghost predicate Describes(p: Prober, req: InspectRequest, ledger: Ledger, latest: uint32,
                            r: Result<InspectResult, ProbeError>)
  {
    var contract := p.parseContract(req.contractId);
    if contract.None? then r == Err(InvalidContractId)
    else if !AllKeysEncode(p, req.dataKeys) then
      exists i: nat :: FirstBadKey(p, req.dataKeys, i) && r == Err(BadDataKey(p.encode(req.dataKeys[i]).error))
    else
      var instance := InstanceOn(ledger, contract.value);
      if instance.None? then r.Ok? && TellsUndeployed(p, req, latest, r.value)
      else if !instance.value.data.Instance? then r == Err(BadInstanceEntry)
      else if r.Err? then
        req.estimateExtend > 0 && exists plan, partly :: p.estimate(plan, partly, req.estimateExtend) == Err(r.error)
      else DescribesDeployed(p, req, contract.value, instance.value, ledger, latest, r.value)
  }

  ghost predicate DescribesDeployed(p: Prober, req: InspectRequest, contract: string, instance: LedgerEntry,
                                    ledger: Ledger, latest: uint32, r: InspectResult)
    requires AllKeysEncode(p, req.dataKeys) && instance.data.Instance?
  {
    && r.deployed && r.contractId == req.contractId && r.latestLedger == latest && r.closeTimeNote == p.closeTimeNote
    && TellsInstance(p, instance, latest, r)
    && TellsCode(p, instance, ledger, latest, r.code)
    && TellsData(p, req, contract, ledger, latest, r.data)
    && TellsEstimates(p, req, contract, r)
    && r.status == WorstIn(r)
  }

  // ---- inspectUncached tells the ledger -----------------------------------------------------------

  lemma EvaluateTells(kind: string, spec: string, entry: LedgerEntry, latest: uint32, d: string, t: Thresholds)
    ensures Tells(EntryReport(kind, spec, Evaluate(entry.liveUntil, latest, d, t), t), kind, spec, Some(entry), latest,
                  d)
  {
  }

  lemma AbsentTells(kind: string, spec: string, latest: uint32, d: string, e: string, t: Thresholds)
    ensures Tells(EntryReport(kind, spec, Absent(latest).(durability := e), t), kind, spec, None, latest, d)
    ensures Absent(latest) == Absent(latest).(durability := "")
  {
  }

  lemma ThresholdsGovern(p: Prober)
    ensures Governs(p.ThresholdsFor(InstanceKind), p.thresholds, p.overrides.forInstance)
    ensures Governs(p.ThresholdsFor(CodeKind), p.thresholds, p.overrides.forCode)
    ensures Governs(p.ThresholdsFor(DataKind), p.thresholds, p.overrides.forData)
  {
  }

  /** The plan exists exactly when the contract id parses and all keys encode. */
  lemma {:induction false} KeysEncodeInOrder(p: Prober, contract: string, specs: seq<string>, durability: string)
    ensures var r := EncodeDataKeys(p, contract, specs, durability);
            && (r.Ok? <==> AllKeysEncode(p, specs))
            && (r.Err? ==> exists i: nat :: FirstBadKey(p, specs, i) && r == Err(BadDataKey(p.encode(specs[i]).error)))
            && (r.Ok? ==> |r.value| == |specs|)
            && (r.Ok? ==> forall i | 0 <= i < |specs| ::
                  r.value[i] == EncodedDataKey(specs[i],
                                               ContractData(contract, p.encode(specs[i]).value,
                                                            durability == "temporary")))
  {
    if specs != [] {
      var rest := specs[1..];
      KeysEncodeInOrder(p, contract, rest, durability);
      assert forall i | 0 <= i < |rest| :: rest[i] == specs[i + 1];
      assert forall i | 1 <= i < |specs| :: specs[i] == rest[i - 1];
      if p.encode(specs[0]).Err? {
        assert FirstBadKey(p, specs, 0);
      } else if EncodeDataKeys(p, contract, rest, durability).Err? {
        var i: nat :| FirstBadKey(p, rest, i) &&
                      EncodeDataKeys(p, contract, rest, durability) == Err(BadDataKey(p.encode(rest[i]).error));
        forall j | 0 <= j < i + 1
          ensures p.encode(specs[j]).Ok?
        {
          assert j > 0 ==> specs[j] == rest[j - 1];
        }
        assert FirstBadKey(p, specs, i + 1);
      }
    }
  }

  lemma DataTells(p: Prober, plan: InspectPlan, found: map<LedgerKey, LedgerEntry>, latest: uint32, k: EncodedDataKey,
                  entry: Option<LedgerEntry>)
    requires entry == On(found, k.key)
    ensures var report := ReportData(p, plan, found, latest, k);
            && Tells(report, "data", k.spec, entry, latest, plan.durability)
            && report.ttl.durability == plan.durability
            && Governs(report.thresholds, p.thresholds, p.overrides.forData)
  {
    hide Tells, Governs;
    var t := p.ThresholdsFor(DataKind);
    ThresholdsGovern(p);
    if entry.Some? {
      EvaluateTells("data", k.spec, entry.value, latest, plan.durability, t);
    } else {
      AbsentTells("data", k.spec, latest, plan.durability, plan.durability, t);
    }
  }

  lemma CodeTells(p: Prober, rpc: Rpc, instance: LedgerEntry, ledger: Ledger, latest: uint32)
    requires Keyed(ledger) && ReadsLedger(rpc, ledger, latest) && NeverFails(rpc)
    ensures var r := InspectCodeOf(p, rpc, HashIn(instance));
            r.Ok? && TellsCode(p, instance, ledger, latest, r.value)
  {
    hide Tells, Governs, IsAnswer, Evaluate, Absent;
    if HashIn(instance).Some? {
      var key := ContractCode(HashIn(instance).value);
      var resp := rpc([key]).value;
      assert IsAnswer(resp, [key], ledger, latest);
      FirstEntry(resp, key, ledger, latest);
      ThresholdsGovern(p);
      var t := p.ThresholdsFor(CodeKind);
      if key in ledger {
        EvaluateTells("code", "", ledger[key], latest, PERSISTENT, t);
      } else {
        AbsentTells("code", "", latest, PERSISTENT, "", t);
      }
    }
  }

  lemma FirstEntry(resp: Response, key: LedgerKey, ledger: Ledger, latest: uint32)
    requires Keyed(ledger) && IsAnswer(resp, [key], ledger, latest)
    ensures resp.latestLedger == latest
    ensures resp.entries == [] <==> key !in ledger
    ensures resp.entries != [] ==> resp.entries[0] == ledger[key]
  {
    OneKeyAnswer(resp.entries, key, ledger);
  }

  lemma WorstTells(r: InspectResult)
    requires r.status == Worst(Statuses(r.instance, r.code, r.data))
    ensures r.status == WorstIn(r)
  {
    hide Worst, Statuses;
    var ss := Statuses(r.instance, r.code, r.data);
    HasIsIn(r);
    assert forall s: Status :: s in ss <==> Has(r, s);
  }

  lemma HasIsIn(r: InspectResult)
    ensures forall s: Status :: s in Statuses(r.instance, r.code, r.data) <==> Has(r, s)
  {
    hide Statuses;
    var ss := Statuses(r.instance, r.code, r.data);
    var c := if r.code.Some? then 1 else 0;
    StatusPositions(r.instance, r.code, r.data);
    forall s: Status
      ensures s in ss <==> Has(r, s)
    {
      if s in ss {
        var i :| 0 <= i < |ss| && ss[i] == s;
        if i > c {
          assert r.data[i - 1 - c].ttl.status == s;
        }
      }
      if exists i | 0 <= i < |r.data| :: r.data[i].ttl.status == s {
        var i :| 0 <= i < |r.data| && r.data[i].ttl.status == s;
        assert ss[1 + c + i] == s;
      }
    }
  }

  /** A client that reads the ledger and never fails: what an inspection returns is what is on that ledger, part for
      part. */
  lemma ReportsDescribeTheLedger(p: Prober, rpc: Rpc, req: InspectRequest, ledger: Ledger, latest: uint32)
    requires Keyed(ledger) && ReadsLedger(rpc, ledger, latest) && NeverFails(rpc)
    ensures Describes(p, req, ledger, latest, InspectUncached(p, rpc, req))
  {
    hide Tells, Governs, EncodeDataKeys, IndexEntries, InspectDeployed, DescribesDeployed, IsAnswer, KeysOf;
    var contract := p.parseContract(req.contractId);
    if contract.Some? {
      KeysEncodeInOrder(p, contract.value, req.dataKeys, AskedDurability(req));
      if AllKeysEncode(p, req.dataKeys) {
        var plan := PlanInspect(p, req).value;
        assert plan.keys[0] == plan.instanceKey;
        assert IsAnswer(rpc(plan.keys).value, plan.keys, ledger, latest);
        LatestOf(rpc(plan.keys).value, plan.keys, ledger, latest);
        IndexOnLedger(rpc, plan.keys, ledger, latest);
        var found := IndexEntries(rpc(plan.keys).value.entries);
        ThresholdsGovern(p);
        if plan.instanceKey in ledger {
          if ledger[plan.instanceKey].data.Instance? {
            DeployedTells(p, rpc, req, plan, found, ledger, latest);
          } else {
            UnreadableInstance(p, rpc, req, plan, found, latest);
          }
        } else {
          AbsentTells("instance", "", latest, PERSISTENT, "", p.ThresholdsFor(InstanceKind));
        }
      }
    }
  }

  lemma LatestOf(resp: Response, keys: seq<LedgerKey>, ledger: Ledger, latest: uint32)
    requires IsAnswer(resp, keys, ledger, latest)
    ensures resp.latestLedger == latest
  {
  }

  lemma UnreadableInstance(p: Prober, rpc: Rpc, req: InspectRequest, plan: InspectPlan,
                           found: map<LedgerKey, LedgerEntry>, latest: uint32)
    requires plan.instanceKey in found && !found[plan.instanceKey].data.Instance?
    ensures InspectDeployed(p, rpc, req, plan, found, latest, p.closeTimeNote) == Err(BadInstanceEntry)
  {
  }

  lemma DeployedTells(p: Prober, rpc: Rpc, req: InspectRequest, plan: InspectPlan,
                      found: map<LedgerKey, LedgerEntry>, ledger: Ledger, latest: uint32)
    requires Keyed(ledger) && ReadsLedger(rpc, ledger, latest) && NeverFails(rpc)
    requires PlanInspect(p, req) == Ok(plan) && AllKeysEncode(p, req.dataKeys)
    requires found == map k | k in plan.keys && k in ledger :: ledger[k]
    requires plan.instanceKey in found && ledger[plan.instanceKey].data.Instance?
    ensures var r := InspectDeployed(p, rpc, req, plan, found, latest, p.closeTimeNote);
            if r.Err? then
              && req.estimateExtend > 0
              && exists plan, partly :: p.estimate(plan, partly, req.estimateExtend) == Err(r.error)
            else
              DescribesDeployed(p, req, plan.contract, ledger[plan.instanceKey], ledger, latest, r.value)
  {
    hide Tells, Governs, EncodeDataKeys, ReportData, ReadsLedger, NeverFails, Keyed, WorstIn, Statuses, InspectCodeOf;
    hide Evaluate, Worst;
    var instance := ledger[plan.instanceKey];
    ThresholdsGovern(p);
    EvaluateTells("instance", "", instance, latest, PERSISTENT, p.ThresholdsFor(InstanceKind));
    assert ReadInstanceEntry(p, instance).value.wasmHash == HashIn(instance);
    CodeTells(p, rpc, instance, ledger, latest);
    AllDataTells(p, req, plan, found, ledger, latest);
    var r := InspectDeployed(p, rpc, req, plan, found, latest, p.closeTimeNote);
    if r.Ok? {
      WorstTells(r.value);
    }
  }

  lemma AllDataTells(p: Prober, req: InspectRequest, plan: InspectPlan, found: map<LedgerKey, LedgerEntry>,
                     ledger: Ledger, latest: uint32)
    requires PlanInspect(p, req) == Ok(plan) && AllKeysEncode(p, req.dataKeys)
    requires found == map k | k in plan.keys && k in ledger :: ledger[k]
    ensures TellsData(p, req, plan.contract, ledger, latest, ReportAllData(p, plan, found, latest))
  {
    hide Tells, Governs, EncodeDataKeys, ReportData;
    KeysEncodeInOrder(p, plan.contract, req.dataKeys, AskedDurability(req));
    var data := ReportAllData(p, plan, found, latest);
    forall i | 0 <= i < |data|
      ensures var entry := DataOn(ledger, plan.contract, p.encode(req.dataKeys[i]).value, AskedDurability(req));
              && Tells(data[i], "data", req.dataKeys[i], entry, latest, AskedDurability(req))
              && data[i].ttl.durability == AskedDurability(req)
              && Governs(data[i].thresholds, p.thresholds, p.overrides.forData)
    {
      var k := plan.dataKeys[i];
      assert plan.keys[i + 1] == k.key;
      DataTells(p, plan, found, latest, k, On(ledger, k.key));
    }
  }

  // ---- a check judges the ledger ----------------------------------------------------------------------

  /** The entry is on the ledger, and if it expires at all, more ledgers than the critical threshold are left. */
  predicate Lasts(p: Prober, own: Option<ThresholdOverride>, entry: Option<LedgerEntry>, latest: uint32) {
    && entry.Some?
    && (entry.value.liveUntil.Some? ==>
          entry.value.liveUntil.value - latest >
          if own.Some? && own.value.critical.Some? then own.value.critical.value else p.thresholds.critical)
  }

  /** The contract, its code and the data asked for are on the ledger, none of them about to expire. */
  predicate AllLast(p: Prober, req: CheckRequest, contract: string, ledger: Ledger, latest: uint32)
    requires AllKeysEncode(p, req.dataKeys)
  {
    var instance := InstanceOn(ledger, contract);
    && Lasts(p, p.overrides.forInstance, instance, latest)
    && (HashIn(instance.value).Some? ==>
          Lasts(p, p.overrides.forCode, On(ledger, ContractCode(HashIn(instance.value).value)), latest))
    && forall i | 0 <= i < |req.dataKeys| ::
         Lasts(p, p.overrides.forData,
               DataOn(ledger, contract, p.encode(req.dataKeys[i]).value, req.dataDurability), latest)
  }

  /** The call that a check asks for. */
  function CallOf(p: Prober, req: CheckRequest): Result<SimulateResult, ProbeError> {
    p.simulate(SimulateRequest(req.contractId, req.fn, req.args))
  }

  predicate SameValue(x: ScVal, y: ScVal) {
    if ToBigInt(x).Some? then ToBigInt(x) == ToBigInt(y) else x == y
  }

  /** The call succeeds, and returns what is expected if anything is. Nothing returned is the void value. */
  predicate CallPleases(p: Prober, req: CheckRequest) {
    && (req.fn != "" ==> CallOf(p, req).Ok? && CallOf(p, req).value.success)
    && (req.expected != "" ==>
          && req.fn != ""
          && p.encode(req.expected).Ok?
          && var returned := CallOf(p, req).value.returnXdr;
             && !returned.BadReturnValue?
             && SameValue(p.encode(req.expected).value, if returned.ReturnValue? then returned.v else Void))
  }

  /** No report can be had of the contract, or the call that is asked for cannot be made. */
  predicate CannotRun(p: Prober, req: CheckRequest, ledger: Ledger) {
    var contract := p.parseContract(req.contractId);
    || contract.None?
    || !AllKeysEncode(p, req.dataKeys)
    || (InstanceOn(ledger, contract.value).Some? &&
        (!InstanceOn(ledger, contract.value).value.data.Instance? || (req.fn != "" && CallOf(p, req).Err?)))
  }

  predicate Deserves(p: Prober, req: CheckRequest, ledger: Ledger, latest: uint32) {
    && !CannotRun(p, req, ledger)
    && AllLast(p, req, p.parseContract(req.contractId).value, ledger, latest)
    && CallPleases(p, req)
  }

  /** What a check returns, over the ledger and the call it asks for. */
  ghost predicate Judges(p: Prober, req: CheckRequest, ledger: Ledger, latest: uint32,
                         r: Result<CheckResult, ProbeError>)
  {
    && (r.Err? <==> CannotRun(p, req, ledger))
    && (r.Ok? ==>
          var inspected := InspectRequest(req.contractId, req.dataKeys, req.dataDurability, 0);
          && (r.value.ok <==> Deserves(p, req, ledger, latest))
          && Describes(p, inspected, ledger, latest, Ok(r.value.inspect))
          && r.value.simulate == (if r.value.inspect.deployed && req.fn != "" then Some(CallOf(p, req).value) else None)
          && r.value.contractId == req.contractId && r.value.latestLedger == latest
          && r.value.status == r.value.inspect.status && r.value.closeTimeNote == p.closeTimeNote)
  }

  lemma MildlyTold(p: Prober, own: Option<ThresholdOverride>, report: EntryReport, kind: string, spec: string,
                   entry: Option<LedgerEntry>, latest: uint32, d: string)
    requires Tells(report, kind, spec, entry, latest, d) && Governs(report.thresholds, p.thresholds, own)
    ensures Mild(report.ttl.status) <==> Lasts(p, own, entry, latest)
  {
  }

  /** The worst status is mild exactly when every entry lasts. */
  lemma MildReports(p: Prober, req: CheckRequest, contract: string, instance: LedgerEntry, ledger: Ledger,
                    latest: uint32, r: InspectResult)
    requires AllKeysEncode(p, req.dataKeys) && instance.data.Instance?
    requires InstanceOn(ledger, contract) == Some(instance)
    requires DescribesDeployed(p, InspectRequestOf(req), contract, instance, ledger, latest, r)
    ensures Mild(Worst(Statuses(r.instance, r.code, r.data))) <==> AllLast(p, req, contract, ledger, latest)
  {
    hide Tells, Governs, Lasts, Worst, Statuses, WorstIn, TellsEstimates, Mild;
    WorstIsMild(r);
    MildlyTold(p, p.overrides.forInstance, r.instance, "instance", "", Some(instance), latest, "persistent");
    if HashIn(instance).Some? {
      MildlyTold(p, p.overrides.forCode, r.code.value, "code", "", On(ledger, ContractCode(HashIn(instance).value)),
                 latest, "persistent");
    }
    var asked := AskedDurability(InspectRequestOf(req));
    forall i | 0 <= i < |r.data|
      ensures var entry := DataOn(ledger, contract, p.encode(req.dataKeys[i]).value, req.dataDurability);
              Mild(r.data[i].ttl.status) <==> Lasts(p, p.overrides.forData, entry, latest)
    {
      var entry := DataOn(ledger, contract, p.encode(req.dataKeys[i]).value, asked);
      MildlyTold(p, p.overrides.forData, r.data[i], "data", req.dataKeys[i], entry, latest, asked);
    }
  }

  lemma MeetsExpectation(p: Prober, req: CheckRequest)
    requires req.fn != "" && CallOf(p, req).Ok?
    ensures CallPleases(p, req) <==>
            && CallOf(p, req).value.success
            && (req.expected != "" ==> ExpectationMet(p, req, Some(CallOf(p, req).value)))
  {
    hide ToBigInt, Matches;
    if p.encode(req.expected).Ok? {
      var returned := CallOf(p, req).value.returnXdr;
      MatchMeaning(p.encode(req.expected).value, if returned.ReturnValue? then returned.v else Void);
    }
  }

  /** On a client that reads the ledger and never fails: a check runs, and is OK, exactly when what it asks about
      deserves it. */
  lemma ChecksJudgeTheLedger(p: Prober, rpc: Rpc, req: CheckRequest, ledger: Ledger, latest: uint32)
    requires Keyed(ledger) && ReadsLedger(rpc, ledger, latest) && NeverFails(rpc)
    ensures Judges(p, req, ledger, latest, CheckContract(p, rpc, req))
  {
    hide InspectUncached, RunSteps, DescribesDeployed, TellsUndeployed, AllLast, Lasts, Worst, Statuses, AllKeysEncode;
    hide CallPleases, NoneFailed;
    ReportsDescribeTheLedger(p, rpc, InspectRequestOf(req), ledger, latest);
    var inspected := InspectUncached(p, rpc, InspectRequestOf(req));
    if inspected.Ok? {
      var contract := p.parseContract(req.contractId).value;
      var instance := InstanceOn(ledger, contract);
      if instance.Some? {
        DeployedFlag(p, req, contract, instance.value, ledger, latest, inspected.value);
        DeployedJudged(p, rpc, req, contract, instance.value, ledger, latest);
      } else {
        UndeployedFlag(p, InspectRequestOf(req), latest, inspected.value);
        MissingContractsFail(p, req, inspected.value);
        assert !AllLast(p, req, contract, ledger, latest) by {
          NothingLasts(p, req, contract, ledger, latest);
        }
      }
    } else {
      FailedReports(p, req, ledger, latest, inspected);
    }
  }

  lemma FailedReports(p: Prober, req: CheckRequest, ledger: Ledger, latest: uint32,
                      r: Result<InspectResult, ProbeError>)
    requires Describes(p, InspectRequestOf(req), ledger, latest, r) && r.Err?
    ensures CannotRun(p, req, ledger)
  {
    hide DescribesDeployed, TellsUndeployed;
  }

  lemma DeployedFlag(p: Prober, req: CheckRequest, contract: string, instance: LedgerEntry, ledger: Ledger,
                     latest: uint32, r: InspectResult)
    requires AllKeysEncode(p, req.dataKeys) && instance.data.Instance?
    requires DescribesDeployed(p, InspectRequestOf(req), contract, instance, ledger, latest, r)
    ensures r.deployed && r.contractId == req.contractId && r.latestLedger == latest
    ensures r.closeTimeNote == p.closeTimeNote
  {
  }

  lemma UndeployedFlag(p: Prober, req: InspectRequest, latest: uint32, r: InspectResult)
    requires TellsUndeployed(p, req, latest, r)
    ensures !r.deployed && r.contractId == req.contractId && r.latestLedger == latest
    ensures r.closeTimeNote == p.closeTimeNote
  {
  }

  lemma NothingLasts(p: Prober, req: CheckRequest, contract: string, ledger: Ledger, latest: uint32)
    requires AllKeysEncode(p, req.dataKeys) && InstanceOn(ledger, contract).None?
    ensures !AllLast(p, req, contract, ledger, latest)
  {
  }

  lemma DeployedJudged(p: Prober, rpc: Rpc, req: CheckRequest, contract: string, instance: LedgerEntry, ledger: Ledger,
                       latest: uint32)
    requires p.parseContract(req.contractId) == Some(contract) && InstanceOn(ledger, contract) == Some(instance)
    requires AllKeysEncode(p, req.dataKeys) && instance.data.Instance?
    requires InspectUncached(p, rpc, InspectRequestOf(req)).Ok?
    requires DescribesDeployed(p, InspectRequestOf(req), contract, instance, ledger, latest,
                               InspectUncached(p, rpc, InspectRequestOf(req)).value)
    ensures var r := CheckContract(p, rpc, req);
            && (r.Err? <==> req.fn != "" && CallOf(p, req).Err?)
            && (r.Ok? ==> (r.value.ok <==> AllLast(p, req, contract, ledger, latest) && CallPleases(p, req)))
  {
    hide InspectUncached, RunSteps, AllLast, Lasts, Worst, Statuses, DescribesDeployed, CallPleases, StepPasses;
    hide ExpectationMet, NoneFailed;
    var inspect := InspectUncached(p, rpc, InspectRequestOf(req)).value;
    DeployedFlag(p, req, contract, instance, ledger, latest, inspect);
    MildReports(p, req, contract, instance, ledger, latest, inspect);
    ReportsCarryTheirWorstStatus(p, rpc, InspectRequestOf(req));
    var sim := GatherSimulation(p, req, inspect);
    if sim.Ok? {
      DeployedRunsEveryStep(p, req, inspect, sim.value);
      VerdictIsCharacterised(p, rpc, req);
      if req.fn != "" {
        MeetsExpectation(p, req);
      } else {
        NoCall(p, req, sim.value);
      }
    }
  }

  lemma NoCall(p: Prober, req: CheckRequest, sim: Option<SimulateResult>)
    requires req.fn == ""
    ensures CallPleases(p, req) <==> req.expected == ""
    ensures !ExpectationMet(p, req, sim)
  {
  }

  // ---- a batch judges the ledger ------------------------------------------------------------------------

  /** The engine on one ledger without failures: the batch is OK exactly when every contract in it deserves it, and
      has errors exactly when some check cannot run. */
  method JudgeBatch(ctx: Context, p: Prober, rpc: Rpc, checks: seq<NamedCheck>, noticed: Option<ProbeError>,
                    ghost ledger: Ledger, ghost latest: uint32)
      returns (r: Result<BatchResult, ProbeError>)
    requires checks != [] && !ctx.DoneBy(ctx.now + LastLook(p, rpc, checks) + 1)
    requires Keyed(ledger) && ReadsLedger(rpc, ledger, latest) && NeverFails(rpc)
    modifies ctx
    ensures r.Ok? && |r.value.items| == |checks|
    ensures r.value.ok <==> forall i | 0 <= i < |checks| :: Deserves(p, checks[i].check, ledger, latest)
    ensures r.value.errored <==> exists i | 0 <= i < |checks| :: CannotRun(p, checks[i].check, ledger)
    ensures forall i | 0 <= i < |checks| :: ReportsCheck(r.value.items[i], p, checks[i], ledger, latest)
  {
    hide Judges, ReportsCheck;
    hide CheckContract, Faithful, ReadsLedger, NeverFails, LastLook, Deserves, CannotRun, Describes, AsItemOutcome;
    r := CheckBatchOnLedger(ctx, p, rpc, checks, noticed, rpc, ledger, latest);
    forall i | 0 <= i < |checks|
      ensures Passed(r.value.items[i]) <==> Deserves(p, checks[i].check, ledger, latest)
      ensures r.value.items[i].error.Some? <==> CannotRun(p, checks[i].check, ledger)
      ensures ReportsCheck(r.value.items[i], p, checks[i], ledger, latest)
    {
      ChecksJudgeTheLedger(p, rpc, checks[i].check, ledger, latest);
      ItemPasses(p, checks[i], CheckContract(p, rpc, checks[i].check), ledger, latest);
    }
  }

  /** The item of a check: its result, of which Judges tells, or its error. */
  ghost predicate ReportsCheck(item: BatchItem, p: Prober, c: NamedCheck, ledger: Ledger, latest: uint32) {
    && IsItemFor(item, c) && HasOneOutcome(item)
    && (item.result.Some? <==> !CannotRun(p, c.check, ledger))
    && (item.result.Some? ==> Judges(p, c.check, ledger, latest, Ok(item.result.value)))
  }

  lemma ItemPasses(p: Prober, c: NamedCheck, r: Result<CheckResult, ProbeError>, ledger: Ledger, latest: uint32)
    requires Judges(p, c.check, ledger, latest, r)
    ensures var item := ItemOf(c, AsItemOutcome(r));
            && (Passed(item) <==> Deserves(p, c.check, ledger, latest))
            && (item.error.Some? <==> CannotRun(p, c.check, ledger))
            && ReportsCheck(item, p, c, ledger, latest)
  {
    hide CannotRun, Describes, AllLast, CallPleases;
  }
}
