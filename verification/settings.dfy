/** The per-bed settings store of the garden scene: each bed's configuration
    (scale, vertical offset, brightness, grid rows and columns) starts from
    the defaults of the bed's plant model, can be changed one key at a time,
    and can be reset per bed or all at once. Also the row/column steppers of
    the settings panel. Numbers are JavaScript numbers, modelled as reals. */
module Settings {

  /** A bed's settings object: key to number. */
  type Config = map<string, real>

  /** All beds' settings, keyed by bed id. */
  type Store = map<string, Config>

  const ScaleKey := "scale"
  const YOffsetKey := "yOffset"
  const BrightnessKey := "brightness"
  const RowsKey := "gridRows"
  const ColsKey := "gridCols"

  function MakeConfig(scale: real, yOffset: real, brightness: real, rows: real, cols: real): Config {
    map[ScaleKey := scale, YOffsetKey := yOffset, BrightnessKey := brightness, RowsKey := rows, ColsKey := cols]
  }

  /** Every configuration the store creates carries the five keys. */
  predicate Complete(c: Config) {
    ScaleKey in c && YOffsetKey in c && BrightnessKey in c && RowsKey in c && ColsKey in c
  }

  const LemongrassModel := "lemon_grass.glb"
  const LemongrassDefaults := MakeConfig(3.5, 0.15, 1.0, 12.0, 12.0)

  /** The per-model defaults, in the order they are listed. */
  const DefaultPlantConfig: seq<(string, Config)> := [
    ("a_cloesup_shot_of_tulsi_plant.glb", MakeConfig(0.75, 0.2, 1.0, 3.0, 3.0)),
    ("coriander-compressed.glb", MakeConfig(1.2, 0.2, 1.0, 4.0, 4.0)),
    ("Curry leaves 3d model.glb", MakeConfig(0.5, 0.2, 1.0, 4.0, 4.0)),
    ("neem_plant_0218122341_texture_obj.glb", MakeConfig(0.45, 0.1, 1.0, 4.0, 4.0)),
    ("amla_plant_containing_fruits.glb", MakeConfig(0.4, 0.2, 1.0, 4.0, 4.0)),
    (LemongrassModel, LemongrassDefaults),
    ("mint_freshness.glb", MakeConfig(0.6, 0.2, 1.0, 3.0, 3.0)),
    ("aloe_vera_plant (1).glb", MakeConfig(0.55, -0.3, 1.0, 3.0, 3.0))
  ]

  /** The configuration used for a model without defaults. */
  const FallbackConfig := MakeConfig(0.6, 0.2, 1.0, 3.0, 3.0)

  /** `DEFAULT_PLANT_CONFIG[model] || fallback`: the entry of the model, or the
      fallback when the table has none. */
  function LookupDefaults(table: seq<(string, Config)>, model: string): Config
    decreases |table|
  {
    if table == [] then FallbackConfig
    else if table[0].0 == model then table[0].1
    else LookupDefaults(table[1..], model)
  }

  /** The lookup finds the first entry for the model. */
  lemma {:induction false} LookupFinds(table: seq<(string, Config)>, model: string, i: nat)
    requires i < |table| && table[i].0 == model
    requires forall j :: 0 <= j < i ==> table[j].0 != model
    ensures LookupDefaults(table, model) == table[i].1
    decreases i
  {
    if i > 0 {
      assert table[0].0 != model;
      LookupFinds(table[1..], model, i - 1);
    }
  }

  /** A model without an entry gets the fallback. */
  lemma {:induction false} LookupMisses(table: seq<(string, Config)>, model: string)
    requires forall j :: 0 <= j < |table| ==> table[j].0 != model
    ensures LookupDefaults(table, model) == FallbackConfig
    decreases |table|
  {
    if table != [] {
      assert table[0].0 != model;
      LookupMisses(table[1..], model);
    }
  }

  /** The lookup yields an entry of the table or the fallback. */
  lemma {:induction false} LookupFrom(table: seq<(string, Config)>, model: string)
    ensures LookupDefaults(table, model) == FallbackConfig
         || exists j :: 0 <= j < |table| && table[j] == (model, LookupDefaults(table, model))
    decreases |table|
  {
    if table != [] && table[0].0 != model {
      LookupFrom(table[1..], model);
      if LookupDefaults(table, model) != FallbackConfig {
        var j :| 0 <= j < |table[1..]| && table[1..][j] == (model, LookupDefaults(table, model));
        assert table[j + 1] == table[1..][j];
      }
    }
  }

  lemma DefaultsAllComplete()
    ensures Complete(FallbackConfig)
    ensures forall j :: 0 <= j < |DefaultPlantConfig| ==> Complete(DefaultPlantConfig[j].1)
  {
  }

  /** The defaults of a bed, looked up through the bed-to-model table built
      from the plant data; a bed the plant data does not list has no model and
      gets the fallback. */
  function BedDefaults(beds: map<string, string>, bedId: string): Config {
    if bedId in beds then LookupDefaults(DefaultPlantConfig, beds[bedId]) else FallbackConfig
  }

  /** Every bed's defaults carry the five keys. */
  lemma BedDefaultsComplete(beds: map<string, string>, bedId: string)
    ensures Complete(BedDefaults(beds, bedId))
  {
    DefaultsAllComplete();
    if bedId in beds {
      LookupFrom(DefaultPlantConfig, beds[bedId]);
    }
  }

  /** The initial store, and the one `resetAll` installs: one entry per bed of
      the plant data, holding a copy of its model's defaults. */
  function InitialStore(beds: map<string, string>): (s: Store)
    ensures s.Keys == beds.Keys
    ensures forall b :: b in s ==> s[b] == BedDefaults(beds, b)
  {
    map b | b in beds :: BedDefaults(beds, b)
  }

  /** `updateSetting(bedId, key, value)`: the bed's object with one key
      replaced; a bed without settings gets an object holding just that key. */
  function UpdateSetting(s: Store, bedId: string, key: string, value: real): Store {
    s[bedId := (if bedId in s then s[bedId] else map[])[key := value]]
  }

  /** `resetBed(bedId)`. */
  function ResetBed(s: Store, beds: map<string, string>, bedId: string): Store {
    s[bedId := BedDefaults(beds, bedId)]
  }

  /** `resetAll()`: the previous store is discarded. */
  function ResetAll(s: Store, beds: map<string, string>): Store {
    InitialStore(beds)
  }

  /** An update sets the key of that bed, keeps its other keys, and leaves every
      other bed as it was. */
  lemma UpdateSettingSpec(s: Store, bedId: string, key: string, value: real)
    ensures var s' := UpdateSetting(s, bedId, key, value);
      && s'.Keys == s.Keys + {bedId}
      && s'[bedId][key] == value
      && (forall k :: k != key ==> (k in s'[bedId] <==> bedId in s && k in s[bedId]))
      && (bedId in s ==> forall k :: k != key && k in s[bedId] ==> s'[bedId][k] == s[bedId][k])
      && (forall b :: b in s && b != bedId ==> s'[b] == s[b])
  {
  }

  /** Resetting a bed gives it its defaults and leaves the other beds alone. */
  lemma ResetBedSpec(s: Store, beds: map<string, string>, bedId: string)
    ensures var s' := ResetBed(s, beds, bedId);
      && s'.Keys == s.Keys + {bedId}
      && s'[bedId] == BedDefaults(beds, bedId)
      && Complete(s'[bedId])
      && (forall b :: b in s && b != bedId ==> s'[b] == s[b])
  {
    BedDefaultsComplete(beds, bedId);
  }

  /** The actions the settings panel can take. */
  datatype Action =
    | Update(bedId: string, key: string, value: real)
    | Reset(bedId: string)
    | ResetEverything

  function Apply(s: Store, beds: map<string, string>, a: Action): Store {
    match a
    case Update(b, k, v) => UpdateSetting(s, b, k, v)
    case Reset(b) => ResetBed(s, beds, b)
    case ResetEverything => ResetAll(s, beds)
  }

  function Run(s: Store, beds: map<string, string>, actions: seq<Action>): Store
    decreases |actions|
  {
    if actions == [] then s else Run(Apply(s, beds, actions[0]), beds, actions[1..])
  }

  /** Every bed of the plant data has a complete configuration. */
  predicate Covers(s: Store, beds: map<string, string>) {
    forall b :: b in beds ==> b in s && Complete(s[b])
  }

  /** No action loses a bed or a key: the invariant the scene relies on when
      it reads `plantSettings[bedId].gridRows` and the like. */
  lemma {:induction false} RunCovers(s: Store, beds: map<string, string>, actions: seq<Action>)
    requires Covers(s, beds)
    ensures Covers(Run(s, beds, actions), beds)
    decreases |actions|
  {
    if actions != [] {
      var s' := Apply(s, beds, actions[0]);
      assert Covers(s', beds) by {
        forall b | b in beds ensures b in s' && Complete(s'[b]) {
          BedDefaultsComplete(beds, b);
        }
      }
      RunCovers(s', beds, actions[1..]);
    }
  }

  /** The store the provider starts with covers every bed of the plant data. */
  lemma InitialCovers(beds: map<string, string>)
    ensures Covers(InitialStore(beds), beds)
  {
    forall b | b in beds
      ensures b in InitialStore(beds) && Complete(InitialStore(beds)[b])
    {
      BedDefaultsComplete(beds, b);
    }
  }

  /** Hence every bed keeps all five settings throughout any session. */
  lemma SessionCovers(beds: map<string, string>, actions: seq<Action>)
    ensures Covers(Run(InitialStore(beds), beds, actions), beds)
  {
    InitialCovers(beds);
    RunCovers(InitialStore(beds), beds, actions);
  }

  /** `resetAll` at the end of any session restores the initial store. */
  lemma RunThenResetAll(s: Store, beds: map<string, string>, actions: seq<Action>)
    ensures Apply(Run(s, beds, actions), beds, ResetEverything) == InitialStore(beds)
  {
  }

  /** The store equals the initial one except, possibly, at `bedId`. */
  predicate InitialExcept(s: Store, beds: map<string, string>, bedId: string) {
    && s.Keys - {bedId} == beds.Keys - {bedId}
    && (forall b :: b in s && b != bedId ==> s[b] == BedDefaults(beds, b))
  }

  lemma {:induction false} UpdatesKeepInitialExcept(s: Store, beds: map<string, string>, bedId: string, actions: seq<Action>)
    requires InitialExcept(s, beds, bedId)
    requires forall i :: 0 <= i < |actions| ==> actions[i].Update? && actions[i].bedId == bedId
    ensures InitialExcept(Run(s, beds, actions), beds, bedId)
    decreases |actions|
  {
    if actions != [] {
      var s' := Apply(s, beds, actions[0]);
      assert s' == UpdateSetting(s, bedId, actions[0].key, actions[0].value);
      assert s'.Keys == s.Keys + {bedId};
      assert s'.Keys - {bedId} == s.Keys - {bedId};
      forall i | 0 <= i < |actions[1..]|
        ensures actions[1..][i].Update? && actions[1..][i].bedId == bedId
      {
        assert actions[1..][i] == actions[i + 1];
      }
      UpdatesKeepInitialExcept(s', beds, bedId, actions[1..]);
    }
  }

  /** Resetting the one bed that differs gives the initial store back. */
  lemma ResetRestoresInitial(s: Store, beds: map<string, string>, bedId: string)
    requires bedId in beds
    requires InitialExcept(s, beds, bedId)
    ensures ResetBed(s, beds, bedId) == InitialStore(beds)
  {
    var s0 := InitialStore(beds);
    var r := ResetBed(s, beds, bedId);
    assert r.Keys == s0.Keys by {
      assert r.Keys == s.Keys + {bedId};
      assert s.Keys + {bedId} == (s.Keys - {bedId}) + {bedId};
      assert beds.Keys == (beds.Keys - {bedId}) + {bedId};
    }
    forall b | b in r
      ensures r[b] == s0[b]
    {
      if b != bedId {
        assert b in s;
      }
    }
  }

  /** Changes confined to one bed are undone by resetting that bed: from the
      initial store, any updates of that bed followed by its reset give the
      initial store back. */
  lemma ResetBedUndoes(beds: map<string, string>, bedId: string, actions: seq<Action>)
    requires bedId in beds
    requires forall i :: 0 <= i < |actions| ==> actions[i].Update? && actions[i].bedId == bedId
    ensures ResetBed(Run(InitialStore(beds), beds, actions), beds, bedId) == InitialStore(beds)
  {
    var s0 := InitialStore(beds);
    assert InitialExcept(s0, beds, bedId);
    UpdatesKeepInitialExcept(s0, beds, bedId, actions);
    ResetRestoresInitial(Run(s0, beds, actions), beds, bedId);
  }

  // ---------------------------------------------------------------- steppers

  function Max(a: real, b: real): real {
    if a >= b then a else b
  }

  function Min(a: real, b: real): real {
    if a <= b then a else b
  }

  const StepperMin: real := 1.0
  const StepperMax: real := 6.0

  /** The "−" button: `Math.max(1, v - 1)`. */
  function StepDown(v: real): (r: real)
    ensures r >= StepperMin
    ensures v >= StepperMin + 1.0 ==> r == v - 1.0
    ensures v < StepperMin + 1.0 ==> r == StepperMin
  {
    Max(1.0, v - 1.0)
  }

  /** The "+" button: `Math.min(6, v + 1)`. */
  function StepUp(v: real): (r: real)
    ensures r <= StepperMax
    ensures v <= StepperMax - 1.0 ==> r == v + 1.0
    ensures v > StepperMax - 1.0 ==> r == StepperMax
  {
    Min(6.0, v + 1.0)
  }

  /** Inside the stepper's range the buttons undo each other, and pressing
      keeps a value in [1, 6]. */
  lemma StepperRoundTrip(v: real)
    requires StepperMin <= v <= StepperMax
    ensures StepperMin <= StepDown(v) <= StepperMax && StepperMin <= StepUp(v) <= StepperMax
    ensures v >= StepperMin + 1.0 ==> StepUp(StepDown(v)) == v
    ensures v <= StepperMax - 1.0 ==> StepDown(StepUp(v)) == v
  {
  }

  /** The lemon-grass bed starts with a 12 x 12 grid, above the stepper's
      maximum: its "+" button lowers the rows to 6, while "−" gives 11. */
  lemma LemongrassStepper()
    ensures var rows := LemongrassDefaults[RowsKey];
      StepUp(rows) == 6.0 && StepUp(rows) < rows && StepDown(rows) == 11.0
  {
  }
}
