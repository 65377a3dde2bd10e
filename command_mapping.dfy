/** The developer-facing facade over the shared command registry. */
module CommandMapping {
  import opened Options
  import opened Text
  import opened CommandLibrary

  /** The `name` of each command, in order. */
  function NamesOf(commands: seq<GameCommand>): (names: seq<string>)
    ensures |names| == |commands|
    ensures forall i :: 0 <= i < |names| ==> names[i] == commands[i].name
  {
    if commands == [] then [] else [commands[0].name] + NamesOf(commands[1..])
  }

  class Mapping {
    /** The shared registry this facade edits. */
    const library: Library

    constructor (library: Library)
      ensures this.library == library
    {
      this.library := library;
    }

    /**
     * Registers `name` (normalized) with the given action, `description`
     * defaulting to "" and `active` to true. Fails, leaving the registry as
     * it was, for a name that is empty after trimming or already registered
     * in any letter case.
     */
    method AddCommand(name: string, action: Action, description: Option<string>, active: Option<bool>)
      returns (ok: bool)
      requires library.Valid()
      modifies library
      ensures library.Valid()
      ensures ok == (Normalize(name) != "" && Normalize(name) !in old(library.commandMap))
      ensures ok ==> library.commandMap == old(library.commandMap)[Normalize(name) :=
        GameCommand(Normalize(name), action, description.GetOr(""), active.GetOr(true))]
      ensures ok ==> library.keys == old(library.keys) + [Normalize(name)]
      ensures !ok ==> library.commandMap == old(library.commandMap) && library.keys == old(library.keys)
    {
      var normalized := Normalize(name);
      if normalized == "" {
        return false;
      }
      NormalizeIsNormal(name);
      if library.Has(normalized) {
        return false;
      }
      var command := CommandInput(normalized, action, description.GetOr(""), Some(active.GetOr(true)));
      ok := library.Add(command);
    }

    /** Removes the command named `name` in any letter case; true iff it existed. */
    method RemoveCommand(name: string) returns (ok: bool)
      requires library.Valid()
      modifies library
      ensures library.Valid()
      ensures ok == (Normalize(name) in old(library.commandMap))
      ensures library.commandMap == old(library.commandMap) - {Normalize(name)}
      ensures library.keys == Erase(old(library.keys), Normalize(name))
      ensures !HasCommand(name)
    {
      var normalized := Normalize(name);
      NormalizeIsNormal(name);
      ok := library.Remove(normalized);
    }

    /** The registered names, in the registry's listing order. */
    function GetAllCommands(): (names: seq<string>)
      reads this, library
      requires library.Valid()
      ensures names == library.keys
    {
      var names := NamesOf(library.List());
      assert forall i :: 0 <= i < |names| ==> names[i] == library.keys[i];
      names
    }

    /** Whether `name`, in any letter case and surrounding whitespace, is registered. */
    function HasCommand(name: string): (b: bool)
      reads this, library
      ensures b <==> library.Get(name).Some?
      ensures library.Valid() ==> (b <==> Normalize(name) in GetAllCommands())
    {
      library.Has(name)
    }

    /** The command registered under `name`, looked up as `HasCommand` does. */
    function GetCommand(name: string): (r: Option<GameCommand>)
      reads this, library
      requires library.Valid()
      ensures r.Some? <==> HasCommand(name)
      ensures r.Some? ==> r.value.name == Normalize(name)
    {
      library.Get(name)
    }

    /** Empties the registry. */
    method ClearAllCommands()
      requires library.Valid()
      modifies library
      ensures library.Valid()
      ensures library.commandMap == map[] && GetAllCommands() == []
    {
      library.Clear();
    }
  }
}
