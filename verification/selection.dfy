/** Bed selection in the garden scene: `selectBed` records the selection,
    clears the AI panel and, for a bed of the plant data, starts a
    `getPlantInfo` request whose answer is stored when it arrives; a click on a
    bed toggles it. The answer to a request is modelled as a function `info` of
    the plant name. */
module Selection {
  import opened Js

  /** A `getPlantInfo` request started by `selectBed`. */
  datatype Request = Request(bed: string, plantName: string)

  /** The selection context: the selected bed (`null` is `None`), the AI data
      shown in the panel, the loading flag, and the requests started so far. */
  datatype State = State(
    selected: Option<string>,
    data: Option<Value>,
    loading: bool,
    requests: seq<Request>)

  const Initial := State(None, None, false, [])

  /** `bedId && plantData[bedId]`: a non-empty id of a bed in the plant data
      (bed id to plant name). */
  predicate Known(plants: map<string, string>, bed: Option<string>) {
    bed.Some? && bed.value != "" && bed.value in plants
  }

  /** `selectBed(bedId)`. */
  function SelectBed(st: State, plants: map<string, string>, bed: Option<string>): (r: State)
    ensures r.selected == bed && r.data == None
    ensures r.loading <==> Known(plants, bed)
    ensures |r.requests| == |st.requests| + (if Known(plants, bed) then 1 else 0)
    ensures r.requests[..|st.requests|] == st.requests
    ensures Known(plants, bed) ==> r.requests[|st.requests|] == Request(bed.value, plants[bed.value])
  {
    if Known(plants, bed) then
      State(bed, None, true, st.requests + [Request(bed.value, plants[bed.value])])
    else
      State(bed, None, false, st.requests)
  }

  /** The click handler of a bed: deselect it when it is the selected one,
      select it otherwise. */
  function Click(st: State, plants: map<string, string>, bed: string): State {
    SelectBed(st, plants, if st.selected == Some(bed) then None else Some(bed))
  }

  /** A click selects the bed exactly when it was not selected. */
  lemma ClickToggles(st: State, plants: map<string, string>, bed: string)
    ensures Click(st, plants, bed).selected == Some(bed) <==> st.selected != Some(bed)
    ensures Click(st, plants, bed).selected.Some? <==> st.selected != Some(bed)
  {
  }

  /** Two clicks on the same bed restore a selection that was empty or that
      bed, and leave nothing selected after any other bed. */
  lemma ClickTwice(st: State, plants: map<string, string>, bed: string)
    ensures var r := Click(Click(st, plants, bed), plants, bed);
      (st.selected == None || st.selected == Some(bed) ==> r.selected == st.selected)
      && (st.selected != None && st.selected != Some(bed) ==> r.selected == None)
  {
  }

  /** The `.then` callback of request `k` as written: the answer is stored and
      loading ends, whatever has been selected since. */
  function ResolveAsWritten(st: State, info: string -> Value, k: nat): (r: State)
    requires k < |st.requests|
    ensures r.selected == st.selected && r.requests == st.requests
    ensures r.data == Some(info(st.requests[k].plantName)) && !r.loading
  {
    st.(data := Some(info(st.requests[k].plantName)), loading := false)
  }

  /** The callback that drops a stale answer: it applies only when request `k`
      is the latest one and its bed is still selected. */
  function Resolve(st: State, info: string -> Value, k: nat): (r: State)
    requires k < |st.requests|
    ensures r.selected == st.selected && r.requests == st.requests
    ensures k == |st.requests| - 1 && st.selected == Some(st.requests[k].bed) ==>
              r.data == Some(info(st.requests[k].plantName)) && !r.loading
    ensures !(k == |st.requests| - 1 && st.selected == Some(st.requests[k].bed)) ==> r == st
  {
    if k == |st.requests| - 1 && st.selected == Some(st.requests[k].bed) then
      st.(data := Some(info(st.requests[k].plantName)), loading := false)
    else st
  }

  /** What can happen to the selection context. */
  datatype Event = Select(choice: Option<string>) | ClickBed(bed: string) | Answer(k: nat)

  /** One event; an answer to a request never started is ignored. */
  function StepAsWritten(st: State, plants: map<string, string>, info: string -> Value, e: Event): State {
    match e
    case Select(b) => SelectBed(st, plants, b)
    case ClickBed(b) => Click(st, plants, b)
    case Answer(k) => if k < |st.requests| then ResolveAsWritten(st, info, k) else st
  }

  function Step(st: State, plants: map<string, string>, info: string -> Value, e: Event): State {
    match e
    case Select(b) => SelectBed(st, plants, b)
    case ClickBed(b) => Click(st, plants, b)
    case Answer(k) => if k < |st.requests| then Resolve(st, info, k) else st
  }

  function RunAsWritten(st: State, plants: map<string, string>, info: string -> Value, events: seq<Event>): State
    decreases |events|
  {
    if events == [] then st else RunAsWritten(StepAsWritten(st, plants, info, events[0]), plants, info, events[1..])
  }

  function Run(st: State, plants: map<string, string>, info: string -> Value, events: seq<Event>): State
    decreases |events|
  {
    if events == [] then st else Run(Step(st, plants, info, events[0]), plants, info, events[1..])
  }

  /** The panel is coherent: AI data is shown only under the header of the
      plant it describes, loading is only shown for a known bed, and every
      request asked for the plant of its bed. */
  predicate Coherent(st: State, plants: map<string, string>, info: string -> Value) {
    && (st.data.Some? ==> Known(plants, st.selected) && st.data.value == info(plants[st.selected.value]))
    && (st.loading ==> Known(plants, st.selected))
    && (forall i :: 0 <= i < |st.requests| ==>
          Known(plants, Some(st.requests[i].bed)) && st.requests[i].plantName == plants[st.requests[i].bed])
  }

  lemma InitialCoherent(plants: map<string, string>, info: string -> Value)
    ensures Coherent(Initial, plants, info)
  {
  }

  lemma StepCoherent(st: State, plants: map<string, string>, info: string -> Value, e: Event)
    requires Coherent(st, plants, info)
    ensures Coherent(Step(st, plants, info, e), plants, info)
  {
    match e
    case Select(b) =>
      var r := SelectBed(st, plants, b);
      forall i | 0 <= i < |r.requests|
        ensures Known(plants, Some(r.requests[i].bed)) && r.requests[i].plantName == plants[r.requests[i].bed]
      {
        if i < |st.requests| {
          assert r.requests[i] == r.requests[..|st.requests|][i];
        }
      }
    case ClickBed(bed) =>
      var b := if st.selected == Some(bed) then None else Some(bed);
      var r := SelectBed(st, plants, b);
      forall i | 0 <= i < |r.requests|
        ensures Known(plants, Some(r.requests[i].bed)) && r.requests[i].plantName == plants[r.requests[i].bed]
      {
        if i < |st.requests| {
          assert r.requests[i] == r.requests[..|st.requests|][i];
        }
      }
    case Answer(k) =>
  }

  /** With stale answers dropped, the panel stays coherent through any
      sequence of selections, clicks and answers. */
  lemma {:induction false} RunCoherent(st: State, plants: map<string, string>, info: string -> Value, events: seq<Event>)
    requires Coherent(st, plants, info)
    ensures Coherent(Run(st, plants, info, events), plants, info)
    decreases |events|
  {
    if events != [] {
      StepCoherent(st, plants, info, events[0]);
      RunCoherent(Step(st, plants, info, events[0]), plants, info, events[1..]);
    }
  }

  /** The answer to the latest request for the selected bed is shown. */
  lemma LatestAnswerShown(st: State, plants: map<string, string>, info: string -> Value, bed: string)
    requires Known(plants, Some(bed))
    ensures var r := Step(SelectBed(st, plants, Some(bed)), plants, info, Answer(|st.requests|));
      r.selected == Some(bed) && r.data == Some(info(plants[bed])) && !r.loading
  {
  }

  function NameInfo(name: string): Value {
    Str(name)
  }

  /** As written, an answer that arrives after another bed was selected is
      shown under the new bed's header: select `a`, then `b`, then the answer
      for `a` arrives. */
  lemma StaleAnswerShown()
    ensures var plants := map["a" := "Tulsi", "b" := "Neem"];
      var r := RunAsWritten(Initial, plants, NameInfo, [Select(Some("a")), Select(Some("b")), Answer(0)]);
      r.selected == Some("b") && r.data == Some(Str("Tulsi")) && !Coherent(r, plants, NameInfo)
  {
    var plants := map["a" := "Tulsi", "b" := "Neem"];
    var s1 := SelectBed(Initial, plants, Some("a"));
    var s2 := SelectBed(s1, plants, Some("b"));
    assert s2.requests[0] == Request("a", "Tulsi");
    var s3 := ResolveAsWritten(s2, NameInfo, 0);
    assert s3.data == Some(Str("Tulsi"));
    assert Str("Tulsi") != Str("Neem") by {
      assert "Tulsi"[0] != "Neem"[0];
    }
    assert RunAsWritten(Initial, plants, NameInfo, [Select(Some("a")), Select(Some("b")), Answer(0)])
        == RunAsWritten(s1, plants, NameInfo, [Select(Some("b")), Answer(0)]);
    assert RunAsWritten(s1, plants, NameInfo, [Select(Some("b")), Answer(0)])
        == RunAsWritten(s2, plants, NameInfo, [Answer(0)]);
  }
}
