/** Reading a contract's state health: internal/probe/inspect.go. The RPC client, the codec and the libraries
    behind them are parameters. */
module Inspect {
  import opened Wrappers
  import opened Words
  import opened Health
  import opened ScVals
  import Codec

  // ---- what the ledger holds ------------------------------------------------------

  /** xdr.LedgerKey. Its base64 text is an injective encoding and is not modelled separately. */
  datatype LedgerKey =
    | ContractData(contract: string, key: ScVal, temporary: bool)
    | ContractCode(hash: string)

  function InstanceKey(contract: string): LedgerKey {
    ContractData(contract, LedgerKeyContractInstance, false)
  }

  datatype Executable = WasmCode(hash: Option<string>) | StellarAsset | OtherExecutable(name: string)

  /** xdr.LedgerEntryData as far as readInstanceEntry looks into it. */
  datatype EntryData =
    | Instance(executable: Executable, storage: Option<seq<MapEntry>>)
    | NotAnInstance
    | NotContractData
    | Undecodable

  datatype LedgerEntry = LedgerEntry(key: LedgerKey, liveUntil: Option<uint32>, data: EntryData)

  datatype Response = Response(latestLedger: uint32, entries: seq<LedgerEntry>)

  datatype ProbeError =
    | InvalidContractId
    | BadDataKey(cause: EncodeError)
    | RpcError(message: string)
    | TooManyKeys
    | NotPrefetched(key: LedgerKey)
    | BadInstanceEntry
    | SimulationError(message: string)
    | EstimateError(message: string)
    | StepError
    | ContextDone

  /** GetLedgerEntries. */
  type Rpc = seq<LedgerKey> -> Result<Response, ProbeError>

  // ---- requests and reports ----------------------------------------------------------

  datatype InspectRequest = InspectRequest(
    contractId: string,
    dataKeys: seq<string>,
    dataDurability: string,
    estimateExtend: uint32)

  datatype EntryReport = EntryReport(kind: string, key: string, ttl: Ttl, thresholds: Thresholds)

  datatype ExtendEstimate = ExtendEstimate(kind: string, key: string, extendTo: uint32, resourceFee: int)

  datatype InspectResult = InspectResult(
    contractId: string,
    deployed: bool,
    executable: string,
    wasmHash: Option<string>,
    instance: EntryReport,
    code: Option<EntryReport>,
    data: seq<EntryReport>,
    storage: Option<Result<Codec.JsonValue, Codec.DecodeError>>,
    estimates: seq<ExtendEstimate>,
    status: Status,
    latestLedger: uint32,
    closeTimeNote: string)

  datatype SimulateRequest = SimulateRequest(contractId: string, fn: string, args: seq<string>)

  /** SimulateResult.ReturnValueXDR: empty, not an ScVal, or an ScVal. */
  datatype ReturnXdr = NoReturnValue | BadReturnValue | ReturnValue(v: ScVal)

  datatype SimulateResult = SimulateResult(success: bool, returnXdr: ReturnXdr)

  /** A Prober without its ledger client: the argument codec, the thresholds and the remaining RPC calls, each
      with the answer it gives while the network stands still and the context lives. ledgerCloseTime then always
      has an answer, since without a measurement it falls back to the target; only its note is in the report. */
  datatype Prober = Prober(
    parseContract: string -> Option<string>,
    encode: string -> Result<ScVal, EncodeError>,
    decode: ScVal -> Result<Codec.JsonValue, Codec.DecodeError>,
    thresholds: Thresholds,
    overrides: ThresholdOverrides,
    closeTimeNote: string,
    estimate: (InspectPlan, InspectResult, uint32) -> Result<seq<ExtendEstimate>, ProbeError>,
    simulate: SimulateRequest -> Result<SimulateResult, ProbeError>)
  {
    function ThresholdsFor(kind: EntryKind): Thresholds {
      ResolveThresholds(kind, thresholds, overrides)
    }
  }

  // ---- planInspect --------------------------------------------------------------------

  datatype EncodedDataKey = EncodedDataKey(spec: string, key: LedgerKey)

  datatype InspectPlan = InspectPlan(
    contract: string,
    instanceKey: LedgerKey,
    dataKeys: seq<EncodedDataKey>,
    keys: seq<LedgerKey>,
    durability: string)

  function EncodeDataKeys(p: Prober, contract: string, specs: seq<string>, durability: string)
      : Result<seq<EncodedDataKey>, ProbeError>
  {
    if specs == [] then Ok([])
    else
      match p.encode(specs[0])
      case Err(e) => Err(BadDataKey(e))
      case Ok(v) =>
        var rest :- EncodeDataKeys(p, contract, specs[1..], durability);
        Ok([EncodedDataKey(specs[0], ContractData(contract, v, durability == TEMPORARY))] + rest)
  }

  method EncodeDataKeysLoop(p: Prober, contract: string, specs: seq<string>, durability: string)
      returns (r: Result<seq<EncodedDataKey>, ProbeError>)
    ensures r == EncodeDataKeys(p, contract, specs, durability)
  {
    var out: seq<EncodedDataKey> := [];
    PrependToAll(out, [], EncodeDataKeys(p, contract, specs, durability));
    assert specs[0..] == specs;
    for i := 0 to |specs|
      invariant EncodeDataKeys(p, contract, specs, durability) ==
                Prepend(out, EncodeDataKeys(p, contract, specs[i..], durability))
    {
      var v := p.encode(specs[i]);
      assert specs[i..][1..] == specs[i + 1..];
      if v.Err? {
        return Err(BadDataKey(v.error));
      }
      var encoded := EncodedDataKey(specs[i], ContractData(contract, v.value, durability == TEMPORARY));
      PrependToAll(out, [encoded], EncodeDataKeys(p, contract, specs[i + 1..], durability));
      out := out + [encoded];
    }
    assert specs[|specs|..] == [] && out + [] == out;
    return Ok(out);
  }

  function KeysOf(dataKeys: seq<EncodedDataKey>): (keys: seq<LedgerKey>)
    ensures |keys| == |dataKeys| && forall i | 0 <= i < |dataKeys| :: keys[i] == dataKeys[i].key
  {
    seq(|dataKeys|, i requires 0 <= i < |dataKeys| => dataKeys[i].key)
  }

  function PlanInspect(p: Prober, req: InspectRequest): Result<InspectPlan, ProbeError> {
    match p.parseContract(req.contractId)
    case None => Err(InvalidContractId)
    case Some(contract) =>
      var durability := if req.dataDurability == "" then PERSISTENT else req.dataDurability;
      var dataKeys :- EncodeDataKeys(p, contract, req.dataKeys, durability);
      var instanceKey := InstanceKey(contract);
      Ok(InspectPlan(contract, instanceKey, dataKeys, [instanceKey] + KeysOf(dataKeys), durability))
  }

  // ---- inspectUncached --------------------------------------------------------------------

  datatype InstanceFacts = InstanceFacts(
    executable: string,
    wasmHash: Option<string>,
    storage: Option<Result<Codec.JsonValue, Codec.DecodeError>>)

  function ReadInstanceEntry(p: Prober, entry: LedgerEntry): Result<InstanceFacts, ProbeError> {
    match entry.data
    case Instance(executable, storage) =>
      var decoded := match storage { case None => None case Some(entries) => Some(p.decode(Map(entries))) };
      Ok(match executable
         case WasmCode(hash) => InstanceFacts("wasm", hash, decoded)
         case StellarAsset => InstanceFacts("stellar_asset", None, decoded)
         case OtherExecutable(name) => InstanceFacts(name, None, decoded))
    case _ => Err(BadInstanceEntry)
  }

  /** indexEntries: the last entry with a key wins; a key without an entry is not on the ledger. */
  function IndexEntries(entries: seq<LedgerEntry>): map<LedgerKey, LedgerEntry> {
    if entries == [] then map[]
    else IndexEntries(entries[..|entries| - 1])[entries[|entries| - 1].key := entries[|entries| - 1]]
  }

  method IndexEntriesLoop(entries: seq<LedgerEntry>) returns (out: map<LedgerKey, LedgerEntry>)
    ensures out == IndexEntries(entries)
  {
    out := map[];
    for i := 0 to |entries|
      invariant out == IndexEntries(entries[..i])
    {
      assert entries[..i + 1][..i] == entries[..i];
      out := out[entries[i].key := entries[i]];
    }
    assert entries[..|entries|] == entries;
  }

  /** Of the entries with one key the last is found, and a key without an entry is not. */
  lemma {:induction false} LastEntryIsFound(entries: seq<LedgerEntry>, key: LedgerKey)
    ensures key !in IndexEntries(entries) ==> forall i | 0 <= i < |entries| :: entries[i].key != key
    ensures key in IndexEntries(entries) ==>
              exists i | 0 <= i < |entries| ::
                && entries[i].key == key && IndexEntries(entries)[key] == entries[i]
                && forall j | i < j < |entries| :: entries[j].key != key
  {
    if entries != [] {
      var init, last := entries[..|entries| - 1], entries[|entries| - 1];
      LastEntryIsFound(init, key);
      assert forall i | 0 <= i < |init| :: entries[i] == init[i];
      if last.key != key && key in IndexEntries(entries) {
        var i :| 0 <= i < |init| && init[i].key == key && IndexEntries(init)[key] == init[i]
                 && forall j | i < j < |init| :: init[j].key != key;
        assert entries[i].key == key;
      }
    }
  }

  function ReportData(p: Prober, plan: InspectPlan, found: map<LedgerKey, LedgerEntry>, latest: uint32,
                      dataKey: EncodedDataKey): EntryReport
  {
    var thresholds := p.ThresholdsFor(DataKind);
    var ttl :=
      if dataKey.key in found then Evaluate(found[dataKey.key].liveUntil, latest, plan.durability, thresholds)
      else Absent(latest).(durability := plan.durability);
    EntryReport("data", dataKey.spec, ttl, thresholds)
  }

  function ReportAllData(p: Prober, plan: InspectPlan, found: map<LedgerKey, LedgerEntry>, latest: uint32)
      : (data: seq<EntryReport>)
    ensures |data| == |plan.dataKeys|
  {
    seq(|plan.dataKeys|, i requires 0 <= i < |plan.dataKeys| => ReportData(p, plan, found, latest, plan.dataKeys[i]))
  }

  /** inspectCode: round two, one key. */
  function InspectCode(p: Prober, rpc: Rpc, hash: string): Result<EntryReport, ProbeError> {
    var resp :- rpc([ContractCode(hash)]);
    var thresholds := p.ThresholdsFor(CodeKind);
    var ttl :=
      if resp.entries == [] then Absent(resp.latestLedger)
      else Evaluate(resp.entries[0].liveUntil, resp.latestLedger, PERSISTENT, thresholds);
    Ok(EntryReport("code", "", ttl, thresholds))
  }

  function Statuses(instance: EntryReport, code: Option<EntryReport>, data: seq<EntryReport>): seq<Status> {
    [instance.ttl.status]
    + (if code.Some? then [code.value.ttl.status] else [])
    + seq(|data|, i requires 0 <= i < |data| => data[i].ttl.status)
  }

  function NotDeployed(p: Prober, req: InspectRequest, latest: uint32, note: string): InspectResult {
    var report := EntryReport("instance", "", Absent(latest), p.ThresholdsFor(InstanceKind));
    InspectResult(req.contractId, false, "", None, report, None, [], None, [], Missing, latest, note)
  }

  function InspectUncached(p: Prober, rpc: Rpc, req: InspectRequest): Result<InspectResult, ProbeError> {
    var plan :- PlanInspect(p, req);
    var resp :- rpc(plan.keys);
    var note := p.closeTimeNote;
    var found := IndexEntries(resp.entries);
    if plan.instanceKey !in found then Ok(NotDeployed(p, req, resp.latestLedger, note))
    else InspectDeployed(p, rpc, req, plan, found, resp.latestLedger, note)
  }

  function InspectDeployed(p: Prober, rpc: Rpc, req: InspectRequest, plan: InspectPlan,
                           found: map<LedgerKey, LedgerEntry>, latest: uint32, note: string)
      : Result<InspectResult, ProbeError>
    requires plan.instanceKey in found
  {
    var entry := found[plan.instanceKey];
    var thresholds := p.ThresholdsFor(InstanceKind);
    var instance := EntryReport("instance", "", Evaluate(entry.liveUntil, latest, PERSISTENT, thresholds), thresholds);
    var facts :- ReadInstanceEntry(p, entry);
    var data := ReportAllData(p, plan, found, latest);
    var code :- InspectCodeOf(p, rpc, facts.wasmHash);
    var result := InspectResult(req.contractId, true, facts.executable, facts.wasmHash, instance, code, data,
                                facts.storage, [], Healthy, latest, note);
    var estimates :- if req.estimateExtend > 0 then p.estimate(plan, result, req.estimateExtend) else Ok([]);
    Ok(result.(estimates := estimates, status := Worst(Statuses(instance, code, data))))
  }

  function InspectCodeOf(p: Prober, rpc: Rpc, hash: Option<string>): Result<Option<EntryReport>, ProbeError> {
    if hash.None? then Ok(None)
    else
      var report :- InspectCode(p, rpc, hash.value);
      Ok(Some(report))
  }

  // ---- how a report ages ------------------------------------------------------------------

  /** Both clients show the same entries; the second one at the same ledger or a later one. */
  ghost predicate SameEntriesLater(rpc: Rpc, later: Rpc) {
    forall keys :: rpc(keys).Ok? && later(keys).Ok? ==>
      && rpc(keys).value.entries == later(keys).value.entries
      && rpc(keys).value.latestLedger <= later(keys).value.latestLedger
  }

  /** With entries and their TTLs fixed, no later report is milder than an earlier one. */
  lemma ReportsOnlyAge(p: Prober, rpc: Rpc, later: Rpc, req: InspectRequest)
    requires SameEntriesLater(rpc, later)
    requires InspectUncached(p, rpc, req).Ok? && InspectUncached(p, later, req).Ok?
    ensures var first, second := InspectUncached(p, rpc, req).value, InspectUncached(p, later, req).value;
            && first.deployed == second.deployed
            && Severity(first.status) <= Severity(second.status)
  {
    var first, second := InspectUncached(p, rpc, req).value, InspectUncached(p, later, req).value;
    var plan := PlanInspect(p, req).value;
    var l1, l2 := rpc(plan.keys).value.latestLedger, later(plan.keys).value.latestLedger;
    var found := IndexEntries(rpc(plan.keys).value.entries);
    if plan.instanceKey in found {
      EntriesOnlyAge(found[plan.instanceKey].liveUntil, l1, l2, PERSISTENT, p.ThresholdsFor(InstanceKind));
      CodeOnlyAges(p, rpc, later, ReadInstanceEntry(p, found[plan.instanceKey]).value.wasmHash);
      forall i | 0 <= i < |plan.dataKeys|
        ensures Severity(first.data[i].ttl.status) <= Severity(second.data[i].ttl.status)
      {
        DataOnlyAges(p, plan, found, l1, l2, plan.dataKeys[i]);
      }
      StatusesOnlyAge(first, second);
    }
  }

  lemma CodeOnlyAges(p: Prober, rpc: Rpc, later: Rpc, hash: Option<string>)
    requires SameEntriesLater(rpc, later)
    requires InspectCodeOf(p, rpc, hash).Ok? && InspectCodeOf(p, later, hash).Ok?
    ensures var first, second := InspectCodeOf(p, rpc, hash).value, InspectCodeOf(p, later, hash).value;
            && (first.Some? <==> second.Some?)
            && (first.Some? ==> Severity(first.value.ttl.status) <= Severity(second.value.ttl.status))
  {
    if hash.Some? {
      var a, b := rpc([ContractCode(hash.value)]).value, later([ContractCode(hash.value)]).value;
      if a.entries != [] {
        EntriesOnlyAge(a.entries[0].liveUntil, a.latestLedger, b.latestLedger, PERSISTENT, p.ThresholdsFor(CodeKind));
      }
    }
  }

  lemma DataOnlyAges(p: Prober, plan: InspectPlan, found: map<LedgerKey, LedgerEntry>, now: uint32, later: uint32,
                     dataKey: EncodedDataKey)
    requires now <= later
    ensures Severity(ReportData(p, plan, found, now, dataKey).ttl.status) <=
            Severity(ReportData(p, plan, found, later, dataKey).ttl.status)
  {
    if dataKey.key in found {
      EntriesOnlyAge(found[dataKey.key].liveUntil, now, later, plan.durability, p.ThresholdsFor(DataKind));
    }
  }

  lemma StatusesOnlyAge(first: InspectResult, second: InspectResult)
    requires |first.data| == |second.data| && (first.code.Some? <==> second.code.Some?)
    requires Severity(first.instance.ttl.status) <= Severity(second.instance.ttl.status)
    requires first.code.Some? ==> Severity(first.code.value.ttl.status) <= Severity(second.code.value.ttl.status)
    requires forall i | 0 <= i < |first.data| ::
               Severity(first.data[i].ttl.status) <= Severity(second.data[i].ttl.status)
    ensures Severity(Worst(Statuses(first.instance, first.code, first.data))) <=
            Severity(Worst(Statuses(second.instance, second.code, second.data)))
  {
    WorstIsMonotone(Statuses(first.instance, first.code, first.data),
                    Statuses(second.instance, second.code, second.data));
  }
}
