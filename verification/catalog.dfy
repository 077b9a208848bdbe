/**
 * The model list (tiny-notepad.py, `get_local_ollama_models`, and the
 * fallback the window applies when it builds the model menu).
 */
module Catalog {
  import opened Common

  /** One element of the `models` array: it has a `name`, or indexing it by
      `"name"` raises (the key is missing, or the element is not an object). */
  datatype Entry = Named(name: string) | Nameless

  /** The `models` member of the decoded body. Iterating a non-array value
      such as a string or an object yields elements that have no `name`. */
  datatype Models = Absent | NotIterable | Items(entries: seq<Entry>)

  /** The response body after JSON decoding. */
  datatype Body = NotJson | NotObject | Object(models: Models)

  /** The outcome of `GET http://localhost:11434/api/tags`. */
  datatype Tags = Unreachable(error: string) | Response(status: int, body: Body)

  /** The model offered when the daemon lists none. */
  const DefaultModel: string := "llama3.2"

  /** The statuses `raise_for_status` turns into an exception: client and
      server errors, 400 to 599. */
  predicate ErrorStatus(status: int) {
    400 <= status < 600
  }

  predicate AllNamed(entries: seq<Entry>) {
    forall i :: 0 <= i < |entries| ==> entries[i].Named?
  }

  /** Each entry's name, in order; one nameless entry aborts the whole list. */
  function Names(entries: seq<Entry>): (r: Option<seq<string>>)
    ensures r.Some? <==> AllNamed(entries)
    ensures r.Some? ==> |r.value| == |entries|
    ensures r.Some? ==> forall i :: 0 <= i < |entries| ==> r.value[i] == entries[i].name
  {
    if entries == [] then Some([])
    else if entries[0].Nameless? then None
    else
      var rest := Names(entries[1..]);
      assert AllNamed(entries) <==> AllNamed(entries[1..]) by {
        if AllNamed(entries[1..]) {
          assert forall i :: 1 <= i < |entries| ==> entries[i] == entries[1..][i - 1];
        }
      }
      if rest.None? then None else Some([entries[0].name] + rest.value)
  }

  /** True when the listing yields names: reachable, not an error status, a
      JSON object whose `models` is iterable and whose elements all have a `name`. */
  predicate Listed(t: Tags) {
    && t.Response?
    && !ErrorStatus(t.status)
    && t.body.Object?
    && t.body.models.Items?
    && AllNamed(t.body.models.entries)
  }

  /** The listing, with every failure turned into the empty list. */
  function ListModels(t: Tags): (r: seq<string>)
    ensures !Listed(t) ==> r == []
    ensures Listed(t) ==> |r| == |t.body.models.entries|
    ensures Listed(t) ==> forall i :: 0 <= i < |r| ==> r[i] == t.body.models.entries[i].name
  {
    match t
    case Unreachable(_) => []
    case Response(status, body) =>
      if ErrorStatus(status) then []
      else match body
        case NotJson => []
        case NotObject => []
        case Object(models) =>
          match models
          case Absent => []
          case NotIterable => []
          case Items(entries) => Names(entries).GetOr([])
  }

  /** The model menu and its initial selection. */
  datatype Menu = Menu(choices: seq<string>, selected: string)

  /** An empty listing is replaced by the default model; the first choice is selected. */
  function BuildMenu(t: Tags): (m: Menu)
    ensures m.choices != [] && m.selected == m.choices[0]
    ensures ListModels(t) != [] ==> m.choices == ListModels(t)
    ensures ListModels(t) == [] ==> m.choices == [DefaultModel]
  {
    var listed := ListModels(t);
    var choices := if listed == [] then [DefaultModel] else listed;
    Menu(choices, choices[0])
  }

  /** The initial selection is the first listed name, or the default when
      the listing failed or came back empty. */
  lemma InitialSelection(t: Tags)
    ensures Listed(t) && t.body.models.entries != [] ==> BuildMenu(t).selected == t.body.models.entries[0].name
    ensures !Listed(t) || t.body.models.entries == [] ==> BuildMenu(t) == Menu([DefaultModel], DefaultModel)
  {
  }

  /** A server error never reaches the caller: the menu falls back to the default. */
  lemma ServerErrorFallsBack(status: int, body: Body)
    requires ErrorStatus(status)
    ensures ListModels(Response(status, body)) == []
    ensures BuildMenu(Response(status, body)) == Menu([DefaultModel], DefaultModel)
  {
  }

  /** A body without `models` is an empty listing, not an error. */
  lemma MissingModelsKey(status: int)
    requires !ErrorStatus(status)
    ensures ListModels(Response(status, Object(Absent))) == []
  {
  }

  /** A single nameless entry discards the names of all the others. */
  lemma NamelessDiscardsAll(status: int, before: seq<Entry>, after: seq<Entry>)
    ensures ListModels(Response(status, Object(Items(before + [Nameless] + after)))) == []
  {
    assert (before + [Nameless] + after)[|before|] == Nameless;
  }

  /** Statuses outside 400..599 (a redirect that was not followed, say) are
      not failures: the body is read as usual. */
  lemma NonErrorStatusIsRead(status: int, names: seq<string>)
    requires !ErrorStatus(status)
    ensures ListModels(Response(status, Object(Items(seq(|names|, i requires 0 <= i < |names| => Named(names[i])))))) == names
  {
  }
}
