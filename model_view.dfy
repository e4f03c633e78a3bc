/**
 * ModelView: the name of the view a handler selects, and the model map the
 * view renders. The map is a reference: setModel shares the caller's map, and
 * addObject writes into whatever map the view currently holds.
 */
module View {
  import opened Wrappers

  /** java.util.HashMap<String, Object>, reduced to its entries and put. */
  class HashMap<V> {
    var entries: map<string, V>

    /** `new HashMap<>()`. */
    constructor ()
      ensures entries == map[]
    {
      entries := map[];
    }

    /** put: the key is bound to the value, replacing any earlier binding; other keys keep theirs. */
    method Put(key: string, value: V)
      modifies this
      ensures entries == old(entries)[key := value]
    {
      entries := entries[key := value];
    }
  }

  class ModelView<V> {
    var view: Option<string>
    var model: HashMap?<V>

    /** `new ModelView()`: no view yet, and a fresh empty model. */
    constructor ()
      ensures view == None
      ensures model != null && fresh(model) && model.entries == map[]
    {
      view := None;
      model := new HashMap<V>();
    }

    /** `new ModelView(view)`: the given view, and a fresh empty model. */
    constructor WithView(view: Option<string>)
      ensures this.view == view
      ensures model != null && fresh(model) && model.entries == map[]
    {
      this.view := view;
      model := new HashMap<V>();
    }

    /** setView: only the view changes. */
    method SetView(view: Option<string>)
      modifies this`view
      ensures this.view == view && model == old(model)
    {
      this.view := view;
    }

    /** setModel: the view now holds the caller's map itself (or null); the view name is kept. */
    method SetModel(model: HashMap?<V>)
      modifies this`model
      ensures this.model == model && view == old(view)
      ensures model != null ==> model.entries == old(model.entries)
    {
      this.model := model;
    }

    /**
     * addObject: `model.put(key, value)` on the map the view holds, which is
     * also the map of anyone sharing it; the view and the reference are kept.
     */
    method AddObject(key: string, value: V)
      requires model != null
      modifies model
      ensures model == old(model) && view == old(view)
      ensures model.entries == old(model.entries)[key := value]
      ensures key in model.entries && model.entries[key] == value
      ensures forall k :: k != key ==> (k in model.entries <==> k in old(model.entries))
      ensures forall k :: k != key && k in model.entries ==> model.entries[k] == old(model.entries)[k]
    {
      model.Put(key, value);
    }
  }

  /** A model map after a sequence of addObject calls: later calls overwrite earlier ones. */
  function AddAll<V>(m: map<string, V>, adds: seq<(string, V)>): (r: map<string, V>)
    ensures r.Keys == m.Keys + set i | 0 <= i < |adds| :: adds[i].0
  {
    if |adds| == 0 then m
    else
      var r := AddAll(m, adds[..|adds| - 1]);
      assert forall i :: 0 <= i < |adds| - 1 ==> adds[..|adds| - 1][i] == adds[i];
      assert (set i | 0 <= i < |adds| :: adds[i].0) ==
             (set i | 0 <= i < |adds| - 1 :: adds[i].0) + {adds[|adds| - 1].0};
      r[adds[|adds| - 1].0 := adds[|adds| - 1].1]
  }

  /**
   * One more addition is the update AddObject makes to the model's entries, so
   * AddAll over a list of pairs is what that series of addObject calls leaves.
   */
  lemma AddAllSnoc<V>(m: map<string, V>, adds: seq<(string, V)>, key: string, value: V)
    ensures AddAll(m, adds + [(key, value)]) == AddAll(m, adds)[key := value]
  {
    assert (adds + [(key, value)])[..|adds|] == adds;
  }

  /** The value a key ends with is the one its last addObject gave it. */
  lemma {:induction false} AddAllLastWins<V>(m: map<string, V>, adds: seq<(string, V)>, i: nat)
    requires i < |adds|
    requires forall j :: i < j < |adds| ==> adds[j].0 != adds[i].0
    ensures AddAll(m, adds)[adds[i].0] == adds[i].1
  {
    if i < |adds| - 1 {
      var front := adds[..|adds| - 1];
      assert front[i] == adds[i];
      assert forall j :: i < j < |front| ==> front[j] == adds[j];
      AddAllLastWins(m, front, i);
    }
  }

  /** A key no addObject names keeps the value it had. */
  lemma {:induction false} AddAllUntouched<V>(m: map<string, V>, adds: seq<(string, V)>, k: string)
    requires k in m
    requires forall j :: 0 <= j < |adds| ==> adds[j].0 != k
    ensures AddAll(m, adds)[k] == m[k]
  {
    if |adds| > 0 {
      var front := adds[..|adds| - 1];
      assert forall j :: 0 <= j < |front| ==> front[j] == adds[j];
      AddAllUntouched(m, front, k);
    }
  }
}
