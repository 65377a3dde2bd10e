/**
 * The command registry: a map from normalized command name to command,
 * iterated in insertion order (a JavaScript `Map`).
 */
module CommandLibrary {
  import opened Options
  import opened Text

  /** The caller's zero-argument `action` callback, as an opaque handle. */
  datatype Action = Action(handle: nat)

  /** A command as the registry stores it. */
  datatype GameCommand = GameCommand(name: string, action: Action, description: string, active: bool)

  /** The argument of `add`: a command whose `active` flag may be missing. */
  datatype CommandInput = CommandInput(name: string, action: Action, description: string, active: Option<bool>)

  /** The registry's view of an input once stored under `key`. */
  function Stored(command: CommandInput, key: string): (c: GameCommand)
    ensures c.name == key && c.action == command.action && c.description == command.description
    ensures c.active == (command.active != Some(false))
  {
    GameCommand(key, command.action, command.description, command.active.GetOr(true))
  }

  /** `keys` without `key`, the order of the others kept. */
  function Erase(keys: seq<string>, key: string): (r: seq<string>)
    ensures forall k :: k in r <==> k in keys && k != key
    ensures key !in keys ==> r == keys
    ensures |r| <= |keys|
  {
    if keys == [] then []
    else (if keys[0] == key then [] else [keys[0]]) + Erase(keys[1..], key)
  }

  /** Erasing distributes over concatenation, so the others keep their order. */
  lemma {:induction false} EraseAppend(a: seq<string>, b: seq<string>, key: string)
    ensures Erase(a + b, key) == Erase(a, key) + Erase(b, key)
  {
    if a != [] {
      var ab := a + b;
      assert ab[1..] == a[1..] + b;
      EraseAppend(a[1..], b, key);
      var head := if a[0] == key then [] else [a[0]];
      var ea, eb := Erase(a[1..], key), Erase(b, key);
      assert Erase(ab, key) == head + (ea + eb);
      assert head + (ea + eb) == (head + ea) + eb;
    } else {
      assert a + b == b;
    }
  }

  /** No key occurs twice. */
  predicate Distinct(keys: seq<string>) {
    forall i, j :: 0 <= i < j < |keys| ==> keys[i] != keys[j]
  }

  lemma {:induction false} EraseKeepsDistinct(keys: seq<string>, key: string)
    requires Distinct(keys)
    ensures Distinct(Erase(keys, key))
  {
    if keys != [] {
      EraseKeepsDistinct(keys[1..], key);
      var rest := Erase(keys[1..], key);
      assert keys[0] !in keys[1..];
      assert keys[0] !in rest;
      var r := Erase(keys, key);
      assert r == (if keys[0] == key then [] else [keys[0]]) + rest;
      if keys[0] != key {
        forall i, j | 0 <= i < j < |r| ensures r[i] != r[j] {
          if i == 0 {
            assert r[j] == rest[j - 1];
          } else {
            assert r[i] == rest[i - 1] && r[j] == rest[j - 1];
          }
        }
      }
    }
  }

  /** The values of `m` under `keys`, in the order of `keys`. */
  function ValuesOf(keys: seq<string>, m: map<string, GameCommand>): (r: seq<GameCommand>)
    requires forall k :: k in keys ==> k in m
    ensures |r| == |keys|
    ensures forall i :: 0 <= i < |r| ==> r[i] == m[keys[i]]
  {
    if keys == [] then [] else [m[keys[0]]] + ValuesOf(keys[1..], m)
  }

  lemma ValuesOfExtend(keys: seq<string>, m: map<string, GameCommand>, key: string, c: GameCommand)
    requires forall k :: k in keys ==> k in m
    requires key !in keys
    ensures ValuesOf(keys + [key], m[key := c]) == ValuesOf(keys, m) + [c]
  {
    var l := ValuesOf(keys + [key], m[key := c]);
    var r := ValuesOf(keys, m) + [c];
    assert |l| == |r|;
    forall i | 0 <= i < |l| ensures l[i] == r[i] {
      if i < |keys| {
        assert (keys + [key])[i] == keys[i];
      }
    }
  }

  /**
   * When `keys` lists the keys of `m` once each and every command is stored
   * under its own name, `ValuesOf` lists every command once.
   */
  lemma ValuesOfFacts(keys: seq<string>, m: map<string, GameCommand>)
    requires forall k :: k in m <==> k in keys
    requires Distinct(keys)
    requires forall k :: k in m ==> m[k].name == k
    ensures var r := ValuesOf(keys, m);
      && (forall k :: k in m ==> m[k] in r)
      && (forall i, j :: 0 <= i < j < |r| ==> r[i].name != r[j].name)
  {
    var r := ValuesOf(keys, m);
    forall k | k in m ensures m[k] in r {
      var i :| 0 <= i < |keys| && keys[i] == k;
      assert r[i] == m[k];
    }
    forall i, j | 0 <= i < j < |r| ensures r[i].name != r[j].name {
      assert r[i].name == keys[i] && r[j].name == keys[j];
    }
  }

  /**
   * The registry invariant: `keys` lists each key of `m` exactly once, and
   * every key is a non-empty normalized name under which the command of that
   * name is stored.
   */
  ghost predicate WellFormed(keys: seq<string>, m: map<string, GameCommand>) {
    && (forall k :: k in m <==> k in keys)
    && Distinct(keys)
    && (forall k :: k in m ==> k != "" && IsLower(k) && IsTrimmed(k) && m[k].name == k)
  }

  lemma InsertKeepsWellFormed(keys: seq<string>, m: map<string, GameCommand>, key: string, c: GameCommand)
    requires WellFormed(keys, m)
    requires key !in m && key != "" && IsLower(key) && IsTrimmed(key) && c.name == key
    ensures WellFormed(keys + [key], m[key := c])
    ensures ValuesOf(keys + [key], m[key := c]) == ValuesOf(keys, m) + [c]
  {
    var keys' := keys + [key];
    var m' := m[key := c];
    assert forall k :: k in m' <==> k in keys' by {
      assert forall k :: k in keys' <==> k in keys || k == key;
    }
    assert Distinct(keys') by {
      forall i, j | 0 <= i < j < |keys'| ensures keys'[i] != keys'[j] {
        if j == |keys| {
          assert keys'[i] == keys[i] && keys[i] in m;
        } else {
          assert keys'[i] == keys[i] && keys'[j] == keys[j];
        }
      }
    }
    assert forall k :: k in m' ==> k != "" && IsLower(k) && IsTrimmed(k) && m'[k].name == k;
    ValuesOfExtend(keys, m, key, c);
  }

  class Library {
    /** The stored commands, keyed by normalized name. */
    var commandMap: map<string, GameCommand>
    /** The keys of `commandMap` in the order they were inserted. */
    var keys: seq<string>

    ghost predicate Valid()
      reads this
    {
      WellFormed(keys, commandMap)
    }

    constructor ()
      ensures Valid()
      ensures commandMap == map[] && keys == []
    {
      commandMap := map[];
      keys := [];
    }

    /**
     * Stores `command` under its normalized name, with `active` defaulting
     * to true. Fails, changing nothing, when that name is empty or taken.
     */
    method Add(command: CommandInput) returns (ok: bool)
      requires Valid()
      modifies this
      ensures Valid()
      ensures ok == (Normalize(command.name) != "" && Normalize(command.name) !in old(commandMap))
      ensures ok ==> commandMap == old(commandMap)[Normalize(command.name) := Stored(command, Normalize(command.name))]
      ensures ok ==> keys == old(keys) + [Normalize(command.name)]
      ensures ok ==> List() == old(List()) + [Stored(command, Normalize(command.name))]
      ensures !ok ==> commandMap == old(commandMap) && keys == old(keys)
    {
      var key := Normalize(command.name);
      if key == "" {
        return false;
      }
      if key in commandMap {
        return false;
      }
      NormalizeIsNormal(command.name);
      InsertKeepsWellFormed(keys, commandMap, key, Stored(command, key));
      commandMap := commandMap[key := Stored(command, key)];
      keys := keys + [key];
      ok := true;
    }

    /** Deletes the command with the normalized `name`; true iff it was there. */
    method Remove(name: string) returns (ok: bool)
      requires Valid()
      modifies this
      ensures Valid()
      ensures ok == (Normalize(name) in old(commandMap))
      ensures commandMap == old(commandMap) - {Normalize(name)}
      ensures keys == Erase(old(keys), Normalize(name))
      ensures !Has(name)
    {
      var key := Normalize(name);
      ok := key in commandMap;
      EraseKeepsDistinct(keys, key);
      commandMap := commandMap - {key};
      keys := Erase(keys, key);
    }

    /**
     * Whether a command is stored under the normalized `name`; under the
     * invariant, exactly when that name is in the listing, which never
     * holds the empty name.
     */
    function Has(name: string): (b: bool)
      reads this
      ensures Valid() ==> (b <==> Normalize(name) in keys)
      ensures Valid() && b ==> Normalize(name) != ""
    {
      Normalize(name) in commandMap
    }

    /**
     * The command stored under the normalized `name`: present exactly when
     * `Has(name)`, and then its name is that normalized name.
     */
    function Get(name: string): (r: Option<GameCommand>)
      reads this
      ensures r.Some? <==> Has(name)
      ensures r.Some? ==> r.value == commandMap[Normalize(name)]
      ensures Valid() && r.Some? ==> r.value.name == Normalize(name)
    {
      var key := Normalize(name);
      if key in commandMap then Some(commandMap[key]) else None
    }

    /**
     * All stored commands in insertion order: one per key, every stored
     * command present, no name twice.
     */
    function List(): (r: seq<GameCommand>)
      reads this
      requires Valid()
      ensures |r| == |keys|
      ensures forall i :: 0 <= i < |r| ==> r[i] == commandMap[keys[i]]
      ensures forall k :: k in commandMap ==> commandMap[k] in r
      ensures forall i, j :: 0 <= i < j < |r| ==> r[i].name != r[j].name
    {
      ValuesOfFacts(keys, commandMap);
      ValuesOf(keys, commandMap)
    }

    /** Removes every command. */
    method Clear()
      requires Valid()
      modifies this
      ensures Valid()
      ensures commandMap == map[] && keys == [] && List() == []
    {
      commandMap := map[];
      keys := [];
    }
  }
}
