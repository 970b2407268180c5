/** The allergy editor shared by the settings form and the onboarding form:
    a text input and the form's list of allergy entries. Adding trims the
    input and appends it only when something is left; each entry's close
    button removes that entry. */
module AllergyEditor {
  import JsText

  datatype Allergy = Allergy(name: string)

  /** The list after an add with input `text`. */
  function Added(list: seq<Allergy>, text: string): seq<Allergy> {
    if JsText.Trim(text) == "" then list else list + [Allergy(JsText.Trim(text))]
  }

  /** The input after an add: cleared only when the add went through. */
  function InputAfterAdd(text: string): string {
    if JsText.Trim(text) == "" then text else ""
  }

  /** The list without its entry at `index`. */
  function RemovedAt(list: seq<Allergy>, index: nat): seq<Allergy>
    requires index < |list|
  {
    list[..index] + list[index + 1..]
  }

  /** Blank input changes neither the list nor the input; any other input
      appends exactly one entry, the trimmed text, after the existing ones,
      and clears the input. */
  lemma AddFacts(list: seq<Allergy>, text: string)
    ensures JsText.AllWhitespace(text) <==> Added(list, text) == list
    ensures JsText.AllWhitespace(text) ==> InputAfterAdd(text) == text
    ensures !JsText.AllWhitespace(text) ==>
      |Added(list, text)| == |list| + 1 && Added(list, text)[..|list|] == list &&
      Added(list, text)[|list|] == Allergy(JsText.Trim(text)) &&
      JsText.Trim(text) != "" && JsText.Trim(JsText.Trim(text)) == JsText.Trim(text) &&
      InputAfterAdd(text) == ""
  {
    JsText.TrimBlankIff(text);
    JsText.TrimIdempotent(text);
    if !JsText.AllWhitespace(text) {
      assert |Added(list, text)| == |list| + 1;
    }
  }

  /** Removing deletes exactly the entry at `index`: the ones before it stay
      where they are, the ones after it move up by one, and nothing else is
      lost or added. */
  lemma RemoveFacts(list: seq<Allergy>, index: nat)
    requires index < |list|
    ensures |RemovedAt(list, index)| == |list| - 1
    ensures forall i :: 0 <= i < index ==> RemovedAt(list, index)[i] == list[i]
    ensures forall i :: index <= i < |list| - 1 ==> RemovedAt(list, index)[i] == list[i + 1]
    ensures multiset(RemovedAt(list, index)) + multiset{list[index]} == multiset(list)
  {
    assert list == list[..index] + [list[index]] + list[index + 1..];
  }

  /** Removing the entry just added gives back the list before the add. */
  lemma RemoveUndoesAdd(list: seq<Allergy>, text: string)
    requires !JsText.AllWhitespace(text)
    ensures RemovedAt(Added(list, text), |list|) == list
  {
    AddFacts(list, text);
    var l := Added(list, text);
    assert l[..|list|] == list;
    assert l[|list| + 1..] == [];
  }

  class AllergyForm {
    /** The form's allergy field array. */
    var allergies: seq<Allergy>
    /** The text in the add-allergy input. */
    var name: string

    constructor (initial: seq<Allergy>)
      ensures allergies == initial && name == ""
    {
      allergies := initial;
      name := "";
    }

    /** The input's change handler. */
    method SetName(text: string)
      modifies this
      ensures name == text && allergies == old(allergies)
    {
      name := text;
    }

    method HandleAdd()
      modifies this
      ensures allergies == Added(old(allergies), old(name))
      ensures name == InputAfterAdd(old(name))
    {
      var trimmed := JsText.Trim(name);
      if trimmed != "" {
        allergies := allergies + [Allergy(trimmed)];
        name := "";
      }
    }

    method Remove(index: nat)
      requires index < |allergies|
      modifies this
      ensures allergies == RemovedAt(old(allergies), index)
      ensures name == old(name)
    {
      allergies := allergies[..index] + allergies[index + 1..];
    }
  }
}
