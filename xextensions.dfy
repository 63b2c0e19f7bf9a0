/** Helpers on XML elements (AppSource/Palladium.Settings/XExtensions.cs). An element is an
    object with a name, attributes and a list of child elements; `Guid.TryParse` is a parameter.
    The settings document (module `SettingsDocument`) does not build on this class: it keeps
    the file as values, with `Root.service` standing for the `ActionSettingsService` element
    that `GetElementOrCreate` finds or makes, `None` where the root has none yet. */
module XExtensions {
  import opened Wrappers
  import opened Guids

  /** The index of the first element of `cs` named `name`, as `XElement.Element(name)`
      finds it. */
  function FirstNamed(cs: seq<XElement>, name: string): (r: Option<nat>)
    ensures r.Some? ==> r.value < |cs| && cs[r.value].Name == name
                        && forall j :: 0 <= j < r.value ==> cs[j].Name != name
    ensures r.None? ==> forall j :: 0 <= j < |cs| ==> cs[j].Name != name
  {
    if |cs| == 0 then None
    else if cs[0].Name == name then Some(0)
    else
      var rest := FirstNamed(cs[1..], name);
      if rest.Some? then Some(rest.value + 1) else None
  }

  /** Appending an element does not change which element is found first, unless none was
      found before and the new one has the name. */
  lemma {:induction false} FirstNamedAppend(cs: seq<XElement>, t: XElement, name: string)
    ensures FirstNamed(cs, name).Some? ==> FirstNamed(cs + [t], name) == FirstNamed(cs, name)
    ensures FirstNamed(cs, name).None? && t.Name == name ==> FirstNamed(cs + [t], name) == Some(|cs|)
  {
    if |cs| > 0 && cs[0].Name != name {
      assert (cs + [t])[1..] == cs[1..] + [t];
      FirstNamedAppend(cs[1..], t, name);
    }
  }

  class XElement {
    const Name: string
    var Attributes: map<string, string>
    var Children: seq<XElement>

    constructor(name: string)
      ensures Name == name && Attributes == map[] && Children == []
    {
      Name := name;
      Attributes := map[];
      Children := [];
    }

    /** The first child named `name`; when there is none, a new empty child is appended
        and returned. */
    method GetElementOrCreate(name: string) returns (target: XElement)
      modifies this
      ensures Attributes == old(Attributes) && target.Name == name
      ensures var i := FirstNamed(old(Children), name);
              if i.Some? then Children == old(Children) && target == Children[i.value]
              else fresh(target) && target.Children == [] && target.Attributes == map[]
                   && Children == old(Children) + [target]
    {
      var i := FirstNamed(Children, name);
      if i.Some? {
        return Children[i.value];
      }
      target := new XElement(name);
      Children := Children + [target];
    }
  }

  /** Two calls return the same element and add at most one child between them. */
  method GetElementOrCreateTwice(e: XElement, name: string) returns (first: XElement, second: XElement)
    modifies e
    ensures first == second && first.Name == name
    ensures |e.Children| == |old(e.Children)| + (if FirstNamed(old(e.Children), name).Some? then 0 else 1)
  {
    first := e.GetElementOrCreate(name);
    FirstNamedAppend(old(e.Children), first, name);
    second := e.GetElementOrCreate(name);
  }

  /** The "Guid" attribute, parsed: absent gives false and the empty GUID; otherwise the
      parser's verdict, with the empty GUID when it fails. */
  function TryGetGuidAttribute(attributes: map<string, string>, parse: string -> Option<Guid>): (r: (bool, Guid))
    ensures r.0 <==> "Guid" in attributes && parse(attributes["Guid"]).Some?
    ensures r.0 ==> r.1 == parse(attributes["Guid"]).value
    ensures !r.0 ==> r.1 == EmptyGuid
  {
    if "Guid" !in attributes then (false, EmptyGuid)
    else
      var parsed := parse(attributes["Guid"]);
      if parsed.Some? then (true, parsed.value) else (false, EmptyGuid)
  }
}
