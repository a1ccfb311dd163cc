/**
 * The selection logic of `src/components/ModelPicker.tsx`: which providers
 * are offered, when the picker is in its zero state, which provider the
 * selection effect settles on, which models are listed, and what picking a
 * model does. The provider and model tables (`PROVIDERS`, `MODELS`) are
 * parameters: their definitions are not part of this model.
 */
module ModelPicker {
  import opened Common
  import opened StorageSync

  datatype Provider = Provider(id: string, name: string)

  datatype Model = Model(id: string, provider: string, name: string)

  /** `apiCredentials.some(c => c.provider === id && c.key)`. */
  predicate HasCredential(credentials: seq<ApiCredential>, id: string) {
    exists i :: 0 <= i < |credentials| && credentials[i].provider == id && credentials[i].key != ""
  }

  function CredentialTest(credentials: seq<ApiCredential>): Provider -> bool {
    (p: Provider) => HasCredential(credentials, p.id)
  }

  /** `availableProviders`. */
  function AvailableProviders(providers: seq<Provider>, credentials: seq<ApiCredential>): seq<Provider> {
    Filter(providers, CredentialTest(credentials))
  }

  /** The providers offered are the listed ones, in their order, that have a credential with a non-empty key. */
  lemma AvailableProvidersSpec(providers: seq<Provider>, credentials: seq<ApiCredential>, split: nat)
    requires split <= |providers|
    ensures forall p | p in providers ::
      (p in AvailableProviders(providers, credentials) <==> HasCredential(credentials, p.id))
    ensures forall p | p in AvailableProviders(providers, credentials) :: p in providers
    ensures AvailableProviders(providers, credentials)
      == AvailableProviders(providers[..split], credentials) + AvailableProviders(providers[split..], credentials)
  {
    FilterSpec(providers, CredentialTest(credentials));
    assert providers == providers[..split] + providers[split..];
    FilterConcat(providers[..split], providers[split..], CredentialTest(credentials));
  }

  /** `isZeroState`. */
  predicate IsZeroState(providers: seq<Provider>, credentials: seq<ApiCredential>) {
    |AvailableProviders(providers, credentials)| == 0
  }

  /** The zero state holds exactly when no listed provider has a usable credential. */
  lemma ZeroStateSpec(providers: seq<Provider>, credentials: seq<ApiCredential>)
    ensures IsZeroState(providers, credentials) <==> forall p | p in providers :: !HasCredential(credentials, p.id)
  {
    AvailableProvidersSpec(providers, credentials, 0);
    var a := AvailableProviders(providers, credentials);
    if a != [] {
      assert a[0] in a;
    }
  }

  /** `availableProviders.some(p => p.id === id)`. */
  predicate IsAvailable(available: seq<Provider>, id: string) {
    exists i :: 0 <= i < |available| && available[i].id == id
  }

  /** A selection JavaScript treats as set: neither null nor the empty string. */
  predicate Chosen(selected: Option<string>) {
    selected.Some? && selected.value != ""
  }

  /** `MODELS.find(m => m.id === defaultModel)`: the first model with that id; an undefined default matches no model. */
  function FindModel(models: seq<Model>, defaultModel: Option<string>): (r: Option<Model>)
    ensures r.Some? ==> Some(r.value.id) == defaultModel
    ensures r.Some? ==> exists i :: 0 <= i < |models| && models[i] == r.value
                                   && forall j :: 0 <= j < i ==> Some(models[j].id) != defaultModel
    ensures r.None? ==> forall m | m in models :: Some(m.id) != defaultModel
    decreases |models|
  {
    if models == [] then None
    else if Some(models[0].id) == defaultModel then Some(models[0])
    else
      assert forall m | m in models :: m == models[0] || m in models[1..];
      var r := FindModel(models[1..], defaultModel);
      if r.Some? then
        var i :| 0 <= i < |models[1..]| && models[1..][i] == r.value
                 && forall j :: 0 <= j < i ==> Some(models[1..][j].id) != defaultModel;
        assert models[i + 1] == r.value;
        assert forall j :: 0 <= j < i + 1 ==> Some(models[j].id) != defaultModel by {
          forall j | 0 <= j < i + 1
            ensures Some(models[j].id) != defaultModel
          {
            if j > 0 {
              assert models[j] == models[1..][j - 1];
            }
          }
        }
        r
      else r
  }

  /** The provider the effect picks when nothing is selected: the default model's, when offered, else the first offered. */
  function Pick(available: seq<Provider>, models: seq<Model>, defaultModel: Option<string>): string
    requires |available| > 0
  {
    var current := FindModel(models, defaultModel);
    if current.Some? && IsAvailable(available, current.value.provider) then current.value.provider
    else available[0].id
  }

  /** The selection after one run of the selection effect; `selected` is the value the render saw. */
  function SelectionStep(isOpen: bool, available: seq<Provider>, models: seq<Model>,
                         defaultModel: Option<string>, selected: Option<string>): Option<string>
  {
    if isOpen && |available| > 0 then
      if Chosen(selected) then
        if IsAvailable(available, selected.value) then selected else None
      else Some(Pick(available, models, defaultModel))
    else selected
  }

  /**
   * One run of the effect: nothing happens while the picker is closed or
   * nothing is offered; a selection that is no longer offered is cleared;
   * an empty selection becomes the default model's provider if offered and
   * otherwise the first offered provider.
   */
  lemma SelectionStepSpec(isOpen: bool, available: seq<Provider>, models: seq<Model>,
                          defaultModel: Option<string>, selected: Option<string>)
    ensures var next := SelectionStep(isOpen, available, models, defaultModel, selected);
      var current := FindModel(models, defaultModel);
      && (!isOpen || |available| == 0 ==> next == selected)
      && (isOpen && |available| > 0 && Chosen(selected) ==>
            next == if IsAvailable(available, selected.value) then selected else None)
      && (isOpen && |available| > 0 && !Chosen(selected) ==>
            && next.Some? && IsAvailable(available, next.value)
            && (current.Some? && IsAvailable(available, current.value.provider) ==> next == Some(current.value.provider))
            && (current.None? || !IsAvailable(available, current.value.provider) ==> next == Some(available[0].id)))
  {
    if isOpen && |available| > 0 && !Chosen(selected) {
      assert IsAvailable(available, available[0].id) by { assert available[0].id == available[0].id; }
    }
  }

  /**
   * While the picker is open and something is offered, two runs of the
   * effect reach a fixed point, and the selection there is an offered
   * provider.
   */
  lemma SelectionConverges(available: seq<Provider>, models: seq<Model>,
                           defaultModel: Option<string>, selected: Option<string>)
    requires |available| > 0
    ensures var s2 := SelectionStep(true, available, models, defaultModel,
                        SelectionStep(true, available, models, defaultModel, selected));
      && s2.Some? && IsAvailable(available, s2.value)
      && SelectionStep(true, available, models, defaultModel, s2) == s2
  {
    SelectionStepSpec(true, available, models, defaultModel, selected);
    var s1 := SelectionStep(true, available, models, defaultModel, selected);
    SelectionStepSpec(true, available, models, defaultModel, s1);
    var s2 := SelectionStep(true, available, models, defaultModel, s1);
    SelectionStepSpec(true, available, models, defaultModel, s2);
  }

  /** With non-empty provider ids, the effect leaves the selection alone exactly when it is an offered provider. */
  lemma FixedPointIsAvailable(available: seq<Provider>, models: seq<Model>,
                              defaultModel: Option<string>, selected: Option<string>)
    requires |available| > 0 && forall p | p in available :: p.id != ""
    ensures SelectionStep(true, available, models, defaultModel, selected) == selected
        <==> selected.Some? && IsAvailable(available, selected.value)
  {
    SelectionStepSpec(true, available, models, defaultModel, selected);
    if selected.Some? && IsAvailable(available, selected.value) {
      var i :| 0 <= i < |available| && available[i].id == selected.value;
      assert available[i] in available;
    }
  }

  /** `MODELS.filter(m => m.provider === selectedProvider)`, shown only when a provider is selected. */
  function ModelsFor(models: seq<Model>, selected: Option<string>): seq<Model> {
    if Chosen(selected) then Filter(models, (m: Model) => m.provider == selected.value) else []
  }

  /**
   * The listed models are exactly those of the selected provider, each as
   * often as in the table, in table order: cutting the table anywhere cuts
   * the list at the same place.
   */
  lemma ModelsForSpec(models: seq<Model>, selected: Option<string>, split: nat)
    requires split <= |models|
    ensures forall m :: m in ModelsFor(models, selected) <==> Chosen(selected) && m in models && m.provider == selected.value
    ensures forall m | m in models ::
      multiset(ModelsFor(models, selected))[m] == if Chosen(selected) && m.provider == selected.value then multiset(models)[m] else 0
    ensures ModelsFor(models, selected) == ModelsFor(models[..split], selected) + ModelsFor(models[split..], selected)
  {
    if Chosen(selected) {
      var test := (m: Model) => m.provider == selected.value;
      FilterSpec(models, test);
      assert models == models[..split] + models[split..];
      FilterConcat(models[..split], models[split..], test);
    }
  }

  /**
   * The picker's view of its state: the provider and model tables, the
   * credentials and default model it reads from storage, whether it is
   * open, and the selected provider.
   */
  class Picker {
    const providers: seq<Provider>
    const models: seq<Model>
    var apiCredentials: seq<ApiCredential>
    var defaultModel: Option<string>
    var isOpen: bool
    var selectedProvider: Option<string>

    constructor (providers: seq<Provider>, models: seq<Model>, apiCredentials: seq<ApiCredential>,
                 defaultModel: Option<string>, isOpen: bool)
      ensures this.providers == providers && this.models == models
      ensures this.apiCredentials == apiCredentials && this.defaultModel == defaultModel && this.isOpen == isOpen
      ensures selectedProvider == None
    {
      this.providers, this.models := providers, models;
      this.apiCredentials, this.defaultModel, this.isOpen := apiCredentials, defaultModel, isOpen;
      selectedProvider := None;
    }

    function Available(): seq<Provider>
      reads this
    {
      AvailableProviders(providers, apiCredentials)
    }

    /** The models listed for the current selection. */
    function Listed(): seq<Model>
      reads this
    {
      ModelsFor(models, selectedProvider)
    }

    /** The provider-selection effect, run once. */
    method SelectionEffect()
      modifies this`selectedProvider
      ensures selectedProvider == SelectionStep(isOpen, Available(), models, defaultModel, old(selectedProvider))
    {
      var available := Available();
      if isOpen && |available| > 0 {
        var selected := selectedProvider;
        if Chosen(selected) && !IsAvailable(available, selected.value) {
          selectedProvider := None;
        }
        if !Chosen(selected) {
          var currentModel := FindModel(models, defaultModel);
          if currentModel.Some? && IsAvailable(available, currentModel.value.provider) {
            selectedProvider := Some(currentModel.value.provider);
          } else {
            selectedProvider := Some(available[0].id);
          }
        }
      }
    }

    /** `handleModelSelect`: the clicked model becomes the default and the picker closes. */
    method HandleModelSelect(modelId: string)
      modifies this`defaultModel, this`isOpen
      ensures defaultModel == Some(modelId) && !isOpen
    {
      defaultModel := Some(modelId);
      isOpen := false;
    }
  }

  /**
   * The effect as the shown hook lets it run: `useStorage` returns no
   * `defaultModel`, so the value the effect reads is undefined.
   */
  function SelectionStepAsWritten(isOpen: bool, available: seq<Provider>, models: seq<Model>,
                                  selected: Option<string>): Option<string>
  {
    SelectionStep(isOpen, available, models, None, selected)
  }

  /**
   * With two offered providers and a default model of the second, the
   * effect as written picks the first provider, while the effect reading
   * the default model picks the second.
   */
  lemma AsWrittenIgnoresDefaultModel()
    ensures var available := [Provider("openai", "OpenAI"), Provider("anthropic", "Anthropic")];
      var models := [Model("claude", "anthropic", "Claude")];
      && SelectionStepAsWritten(true, available, models, None) == Some("openai")
      && SelectionStep(true, available, models, Some("claude"), None) == Some("anthropic")
  {
    var available := [Provider("openai", "OpenAI"), Provider("anthropic", "Anthropic")];
    var models := [Model("claude", "anthropic", "Claude")];
    assert FindModel(models, None) == None by {
      assert FindModel(models[1..], None) == None;
    }
    assert FindModel(models, Some("claude")) == Some(models[0]);
    assert IsAvailable(available, "anthropic") by { assert available[1].id == "anthropic"; }
  }
}
