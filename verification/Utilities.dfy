/**
 * `cleanProps` of config_app/src/lib/utilities/index.js: copies from a
 * properties object only the keys the configuration knows (the keys of
 * DEFAULTS), in the object's own key order.
 *
 * A JavaScript object is its list of entries in insertion order, with no
 * key twice; assigning to a key it already has replaces the value in place,
 * assigning to a new key appends an entry.
 */
module Utilities {
  import opened ConfigCodec

  type Entries = seq<(string, JsValue)>

  /** An object never holds a key twice. */
  predicate DistinctKeys(entries: Entries)
  {
    forall i, j :: 0 <= i < j < |entries| ==> entries[i].0 != entries[j].0
  }

  /** `obj[key] = value`. */
  function Put(entries: Entries, key: string, value: JsValue): (r: Entries)
    ensures key !in KeysOf(entries) ==> r == entries + [(key, value)]
  {
    if entries == [] then [(key, value)]
    else if entries[0].0 == key then [(key, value)] + entries[1..]
    else [entries[0]] + Put(entries[1..], key, value)
  }

  /** The object `cleanProps` returns, built entry by entry. */
  function Cleaned(props: Entries): Entries
  {
    if props == [] then []
    else
      var kept := Cleaned(props[..|props| - 1]);
      var (key, value) := props[|props| - 1];
      if key in KEYS then kept + [(key, value)] else kept
  }

  /** The known keys among `keys`, in order: the reference for the key order `cleanProps` keeps. */
  function KnownKeys(keys: seq<string>): seq<string>
  {
    if keys == [] then []
    else KnownKeys(keys[..|keys| - 1]) + (if keys[|keys| - 1] in KEYS then [keys[|keys| - 1]] else [])
  }

  /**
   * `cleanProps(props)`: walks `Object.keys(props)` in order and assigns each
   * key found in KEYS to a fresh object.
   */
  method CleanProps(props: Entries) returns (cleaned: Entries)
    requires DistinctKeys(props)
    ensures cleaned == Cleaned(props)
  {
    cleaned := [];
    var i := 0;
    while i < |props|
      invariant 0 <= i <= |props|
      invariant cleaned == Cleaned(props[..i])
    {
      assert props[..i + 1][..i] == props[..i];
      var (key, value) := props[i];
      if key in KEYS {
        CleanedKeysFrom(props[..i], key);
        assert key !in KeysOf(props[..i]);
        cleaned := Put(cleaned, key, value);
      }
      i := i + 1;
    }
    assert props[..i] == props;
  }

  /** Every key of the cleaned object comes from the input. */
  lemma {:induction false} CleanedKeysFrom(props: Entries, key: string)
    ensures key in KeysOf(Cleaned(props)) ==> key in KeysOf(props)
  {
    if props != [] {
      var init := props[..|props| - 1];
      CleanedKeysFrom(init, key);
      if key in KeysOf(init) {
        var i :| 0 <= i < |init| && KeysOf(init)[i] == key;
        assert KeysOf(props)[i] == key;
      }
      if key == props[|props| - 1].0 {
        assert KeysOf(props)[|props| - 1] == key;
      }
    }
  }

  /** The keys kept are the input's known keys, in the input's order. */
  lemma {:induction false} CleanedKeyOrder(props: Entries)
    ensures KeysOf(Cleaned(props)) == KnownKeys(KeysOf(props))
  {
    if props != [] {
      var init := props[..|props| - 1];
      CleanedKeyOrder(init);
      assert KeysOf(props)[..|props| - 1] == KeysOf(init);
    }
  }

  /** A key survives exactly when the input holds it and DEFAULTS knows it. */
  lemma {:induction false} KnownKeysMembership(keys: seq<string>, key: string)
    ensures key in KnownKeys(keys) <==> key in keys && key in KEYS
  {
    if keys != [] {
      KnownKeysMembership(keys[..|keys| - 1], key);
      assert keys == keys[..|keys| - 1] + [keys[|keys| - 1]];
    }
  }

  /** Every entry kept is an entry of the input, with its value unchanged. */
  lemma {:induction false} CleanedEntriesFrom(props: Entries, i: nat)
    requires i < |Cleaned(props)|
    ensures Cleaned(props)[i] in props && Cleaned(props)[i].0 in KEYS
  {
    var init := props[..|props| - 1];
    if i < |Cleaned(init)| {
      CleanedEntriesFrom(init, i);
      assert Cleaned(props)[i] == Cleaned(init)[i];
    } else {
      assert Cleaned(props)[i] == props[|props| - 1];
    }
  }

  /** Cleaning a cleaned object changes nothing. */
  lemma CleanedIdempotent(props: Entries)
    ensures Cleaned(Cleaned(props)) == Cleaned(props)
  {
    CleanedAllKnownKeys(props);
    CleanedAllKnown(Cleaned(props));
  }

  /** Every key of a cleaned object is known. */
  lemma CleanedAllKnownKeys(props: Entries)
    ensures forall i :: 0 <= i < |Cleaned(props)| ==> Cleaned(props)[i].0 in KEYS
  {
    forall i | 0 <= i < |Cleaned(props)| ensures Cleaned(props)[i].0 in KEYS {
      CleanedEntriesFrom(props, i);
    }
  }

  /** An object whose keys are all known comes back whole. */
  lemma {:induction false} CleanedAllKnown(props: Entries)
    requires forall i :: 0 <= i < |props| ==> props[i].0 in KEYS
    ensures Cleaned(props) == props
  {
    if props != [] {
      var init := props[..|props| - 1];
      CleanedAllKnown(init);
      assert props == init + [props[|props| - 1]];
    }
  }

  /** DEFAULTS with an unknown key added cleans back to exactly the keys of DEFAULTS. */
  lemma UnknownKeyRemoved(extra: JsValue)
    ensures KeysOf(Cleaned(DEFAULTS + [("unknownkey", extra)])) == KEYS
  {
    KeysOfDefaults();
    assert "unknownkey" !in KEYS;
    var props := DEFAULTS + [("unknownkey", extra)];
    assert props[..|props| - 1] == DEFAULTS;
    forall i | 0 <= i < |DEFAULTS| ensures DEFAULTS[i].0 in KEYS {
      assert DEFAULTS[i].0 == KEYS[i];
    }
    CleanedAllKnown(DEFAULTS);
  }
}
