/** Per-model metadata: the table of known models and the generic estimate. */
module Registry {
  import opened Prelude

  datatype ModelSpec = ModelSpec(name: string, totalLayers: nat, perLayerMb: nat, contextMb: nat) {
    function TotalMb(): nat {
      totalLayers * perLayerMb + contextMb
    }
  }

  function LlamaModels(): seq<ModelSpec> {[
    ModelSpec("llama3.2:1b", 16, 80, 150),
    ModelSpec("llama3.2:3b", 28, 70, 200),
    ModelSpec("llama3.1:8b", 32, 145, 512),
    ModelSpec("llama3.1:70b", 80, 480, 2048),
    ModelSpec("llama3.1:405b", 126, 1820, 4096),
    ModelSpec("llama3.3:70b", 80, 480, 2048)
  ]}

  function MistralAndQwenModels(): seq<ModelSpec> {[
    ModelSpec("mistral:7b", 32, 120, 400),
    ModelSpec("mistral-nemo", 40, 175, 600),
    ModelSpec("qwen2.5:7b", 28, 150, 400),
    ModelSpec("qwen2.5:14b", 48, 175, 600),
    ModelSpec("qwen2.5:32b", 64, 300, 1024),
    ModelSpec("qwen2.5:72b", 80, 540, 2048)
  ]}

  function OtherModels(): seq<ModelSpec> {[
    ModelSpec("phi4:14b", 40, 200, 600),
    ModelSpec("deepseek-r1:7b", 28, 145, 400),
    ModelSpec("deepseek-r1:14b", 48, 175, 600),
    ModelSpec("deepseek-r1:32b", 64, 300, 1024),
    ModelSpec("deepseek-r1:70b", 80, 480, 2048),
    ModelSpec("gemma3:9b", 46, 120, 400),
    ModelSpec("gemma3:27b", 62, 260, 1024)
  ]}

  /** The table, in lookup order. */
  function KnownModels(): seq<ModelSpec> {
    LlamaModels() + MistralAndQwenModels() + OtherModels()
  }

  const ESTIMATE_MB := 4096

  /** The first entry whose name is the given lower-case name or a prefix of it. */
  function Lookup(table: seq<ModelSpec>, lower: string): Option<ModelSpec> {
    if table == [] then None
    else if table[0].name <= lower then Some(table[0])
    else Lookup(table[1..], lower)
  }

  function Estimate(name: string, totalMb: nat): ModelSpec {
    var context := totalMb / 8;
    ModelSpec(name, 32, (totalMb - context) / 32, context)
  }

  /** The specification the coordinator plans with; `lower` is the lower-cased `model`. */
  function Resolve(model: string, lower: string): ModelSpec {
    match Lookup(KnownModels(), lower)
    case Some(spec) => spec
    case None => Estimate(model, ESTIMATE_MB)
  }

  /** What planning relies on: layers exist, weigh something, and outweigh the context without one of them. */
  predicate Plannable(spec: ModelSpec) {
    && spec.totalLayers > 0
    && spec.perLayerMb > 0
    && spec.contextMb <= (spec.totalLayers - 1) * spec.perLayerMb
  }

  /** A name is looked up by prefix: the first entry whose name begins it is found, and nothing only if there is none. */
  lemma {:induction false} LookupIs(table: seq<ModelSpec>, lower: string)
    ensures match Lookup(table, lower)
      case Some(spec) => exists k :: 0 <= k < |table| && table[k] == spec && BeginsFirst(table, lower, k)
      case None => forall k :: 0 <= k < |table| ==> !Begins(table[k].name, lower)
  {
    if table != [] && !Begins(table[0].name, lower) {
      LookupIs(table[1..], lower);
      if Lookup(table, lower).Some? {
        var k :| 0 <= k < |table[1..]| && table[1..][k] == Lookup(table, lower).value && BeginsFirst(table[1..], lower, k);
        assert forall j :: 0 < j < |table| ==> table[j] == table[1..][j - 1];
        assert BeginsFirst(table, lower, k + 1);
      } else {
        assert forall j :: 0 < j < |table| ==> table[j] == table[1..][j - 1];
      }
    } else if table != [] {
      assert BeginsFirst(table, lower, 0);
    }
  }

  predicate Begins(prefix: string, s: string) {
    |prefix| <= |s| && forall i :: 0 <= i < |prefix| ==> prefix[i] == s[i]
  }

  predicate BeginsFirst(table: seq<ModelSpec>, lower: string, k: nat)
    requires k < |table|
  {
    Begins(table[k].name, lower) && forall j :: 0 <= j < k ==> !Begins(table[j].name, lower)
  }

  /** The generic estimate sets an eighth aside as context and divides the rest by 32 layers, rounding both down. */
  lemma EstimateIs(name: string, totalMb: nat)
    ensures var e := Estimate(name, totalMb);
      && e.name == name && e.totalLayers == 32
      && 8 * e.contextMb <= totalMb < 8 * e.contextMb + 8
      && 32 * e.perLayerMb <= totalMb - e.contextMb < 32 * e.perLayerMb + 32
  {
  }

  /** A known name gets the first entry that begins it, an unknown one the estimate for 4096 MB under its own name. */
  lemma ResolveIs(model: string, lower: string)
    ensures var spec, table := Resolve(model, lower), KnownModels();
      || (exists k :: 0 <= k < |table| && table[k] == spec && BeginsFirst(table, lower, k))
      || ((forall k :: 0 <= k < |table| ==> !Begins(table[k].name, lower)) && spec == ModelSpec(model, 32, 112, 512))
  {
    LookupIs(KnownModels(), lower);
  }

  lemma LlamaPlannable()
    ensures forall m :: m in LlamaModels() ==> Plannable(m)
  {
  }

  lemma MistralAndQwenPlannable()
    ensures forall m :: m in MistralAndQwenModels() ==> Plannable(m)
  {
  }

  lemma OtherPlannable()
    ensures forall m :: m in OtherModels() ==> Plannable(m)
  {
  }

  lemma TablePlannable(a: seq<ModelSpec>, b: seq<ModelSpec>, c: seq<ModelSpec>, lower: string)
    requires forall m :: m in a ==> Plannable(m)
    requires forall m :: m in b ==> Plannable(m)
    requires forall m :: m in c ==> Plannable(m)
    ensures var r := Lookup(a + b + c, lower); r.Some? ==> Plannable(r.value)
  {
    LookupIs(a + b + c, lower);
  }

  /** Every model name, known or not, resolves to a specification that can be planned. */
  lemma ResolvePlannable(model: string, lower: string)
    ensures Plannable(Resolve(model, lower))
  {
    LlamaPlannable();
    MistralAndQwenPlannable();
    OtherPlannable();
    TablePlannable(LlamaModels(), MistralAndQwenModels(), OtherModels(), lower);
  }
}
