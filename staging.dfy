/**
 * The transient store between the upload step and the import step: WordPress
 * transients (`set_transient`, `get_transient`, `delete_transient`) seen as a
 * mutable map from transient keys to stored PHP values.
 */
module Staging {
  import opened PhpValue

  /** What `get_transient($key)` reads from the stored entries: the value, or None where WordPress returns false. */
  function Lookup(entries: map<string, Value>, key: string): (r: Option<Value>)
    ensures r.Some? <==> key in entries
    ensures r.Some? ==> r.value == entries[key]
  {
    if key in entries then Some(entries[key]) else None
  }

  class TransientStore {
    var entries: map<string, Value>

    constructor ()
      ensures entries == map[]
    {
      entries := map[];
    }

    /** `get_transient($key)` on the current entries. */
    function Get(key: string): (r: Option<Value>)
      reads this
      ensures r.Some? <==> key in entries
      ensures r.Some? ==> r.value == entries[key]
    {
      Lookup(entries, key)
    }

    /** `set_transient($key, $value, ...)`: stores the value, replacing any earlier one. */
    method Set(key: string, value: Value)
      modifies this
      ensures entries == old(entries)[key := value]
    {
      entries := entries[key := value];
    }

    /** `delete_transient($key)`: afterwards the key reads as absent. */
    method Delete(key: string)
      modifies this
      ensures entries == old(entries) - {key}
      ensures Get(key).None?
    {
      entries := entries - {key};
    }
  }
}
