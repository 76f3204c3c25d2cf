// `UserProperties` (collections/userproperties.py): a string-keyed mapping
// mirrored as JSON text in the node's `notes` attribute.
module UserProps {
  import opened Wrappers

  /**
   * The JSON pair is a parameter: `encode` is `json.dumps(m, indent=4)` and
   * `decode` is `json.loads` on a JSON object, None on a JSONDecodeError.
   * Decoding what was encoded gives the map back; `json.dumps` never yields
   * empty text.
   */
  ghost predicate RoundTrip<V(!new)>(encode: map<string, V> -> string, decode: string -> Option<map<string, V>>)
  {
    && (forall m :: decode(encode(m)) == Some(m))
    && (forall m :: encode(m) != "")
  }

  /** The notes text after `invalidate`: rewritten from a non-empty map, left as it was for an empty one. */
  function NotesAfter<V>(properties: map<string, V>, notes: Option<string>, encode: map<string, V> -> string): Option<string>
  {
    if |properties| > 0 then Some(encode(properties)) else notes
  }

  /** `buffer()`: the notes text, or '' when the attribute holds no value. */
  function BufferOf(notes: Option<string>): string
  {
    if notes.Some? then notes.value else ""
  }

  /** The properties after `setBuffer(buffer)`: unchanged for '', the decoded map, or {} for invalid JSON. */
  function Loaded<V>(buffer: string, properties: map<string, V>, decode: string -> Option<map<string, V>>): map<string, V>
  {
    if |buffer| == 0 then properties
    else if decode(buffer).Some? then decode(buffer).value
    else map[]
  }

  /** Whatever was in memory, reloading the text written for a non-empty map restores exactly that map. */
  lemma ReloadRestores<V(!new)>(m: map<string, V>, notes: Option<string>, inMemory: map<string, V>,
                          encode: map<string, V> -> string, decode: string -> Option<map<string, V>>)
    requires RoundTrip(encode, decode)
    requires |m| > 0
    ensures Loaded(BufferOf(NotesAfter(m, notes, encode)), inMemory, decode) == m
  {
    assert decode(encode(m)) == Some(m);
    assert encode(m) != "";
  }

  /**
   * Deleting the last key leaves the notes text as it was, so a reload brings
   * the deleted key back.
   */
  lemma DeleteLastResurrects<V(!new)>(k: string, v: V, notes: Option<string>,
                                encode: map<string, V> -> string, decode: string -> Option<map<string, V>>)
    requires RoundTrip(encode, decode)
    ensures var written := NotesAfter(map[k := v], notes, encode);
      var deleted := map[k := v] - {k};
      && deleted == map[]
      && NotesAfter(deleted, written, encode) == written
      && Loaded(BufferOf(NotesAfter(deleted, written, encode)), deleted, decode) == map[k := v]
  {
    var m := map[k := v];
    assert |m| == 1;
    var deleted := m - {k};
    assert deleted == map[];
    ReloadRestores(m, notes, deleted, encode, decode);
  }

  /** The evidently intended `invalidate`: an empty map is written out as well. */
  function NotesAfterCorrected<V>(properties: map<string, V>, encode: map<string, V> -> string): Option<string>
  {
    Some(encode(properties))
  }

  /** With the corrected `invalidate`, reloading always gives back the map in memory, the empty one included. */
  lemma ReloadRestoresCorrected<V(!new)>(m: map<string, V>, inMemory: map<string, V>,
                                   encode: map<string, V> -> string, decode: string -> Option<map<string, V>>)
    requires RoundTrip(encode, decode)
    ensures Loaded(BufferOf(NotesAfterCorrected(m, encode)), inMemory, decode) == m
  {
    assert decode(encode(m)) == Some(m);
    assert encode(m) != "";
  }

  /** The mapping and the node's `notes` attribute it is stored in. */
  class UserProperties<V> {
    var properties: map<string, V>
    /** The value of `notes`; None when the attribute is missing or holds no value. */
    var notes: Option<string>
    /** Whether the node has a `notes` attribute. */
    var hasNotes: bool
    const encode: map<string, V> -> string
    const decode: string -> Option<map<string, V>>

    /** `__init__`: an empty map, then `reload` from the node's notes. */
    constructor (notes: Option<string>, hasNotes: bool, encode: map<string, V> -> string,
                 decode: string -> Option<map<string, V>>)
      ensures this.encode == encode && this.decode == decode
      ensures properties == Loaded(BufferOf(notes), map[], decode)
      ensures this.notes == (if BufferOf(notes) == "" then notes else NotesAfter(properties, notes, encode))
      ensures this.hasNotes
    {
      this.properties := map[];
      this.notes := notes;
      this.hasNotes := hasNotes;
      this.encode := encode;
      this.decode := decode;
      new;
      Reload();
    }

    /** `__getitem__`. */
    function Get(key: string): (r: Result<V>)
      reads this
      ensures key in properties <==> r.Ok?
      ensures r.Ok? ==> r.value == properties[key]
      ensures r.Err? ==> r.error == KeyError
    {
      if key in properties then Ok(properties[key]) else Err(KeyError)
    }

    /** `ensureNotes`. */
    method EnsureNotes()
      modifies this
      ensures hasNotes && properties == old(properties) && notes == old(notes)
    {
      hasNotes := true;
    }

    /** `invalidate`: the map is dumped into `notes` unless it is empty. */
    method Invalidate()
      modifies this
      ensures hasNotes && properties == old(properties)
      ensures notes == NotesAfter(properties, old(notes), encode)
    {
      EnsureNotes();
      if |properties| > 0 {
        notes := Some(encode(properties));
      }
    }

    /** `__setitem__`: the key is set, the others are kept, and the notes hold the new map. */
    method Set(key: string, value: V)
      modifies this
      ensures properties == old(properties)[key := value]
      ensures hasNotes && notes == Some(encode(properties))
    {
      properties := properties[key := value];
      Invalidate();
    }

    /** `__delitem__`: KeyError for a missing key; otherwise the key goes and the notes are rewritten unless the map is now empty. */
    method Delete(key: string) returns (s: Status)
      modifies this
      ensures key !in old(properties) ==> s == Raised(KeyError) && properties == old(properties) && notes == old(notes)
      ensures key in old(properties) ==>
        && s == Done && properties == old(properties) - {key}
        && hasNotes && notes == NotesAfter(properties, old(notes), encode)
    {
      if key !in properties {
        return Raised(KeyError);
      }
      properties := properties - {key};
      Invalidate();
      s := Done;
    }

    /** `update(items)`: the supplied items override existing keys. */
    method Update(items: map<string, V>)
      modifies this
      ensures properties == old(properties) + items
      ensures hasNotes && notes == NotesAfter(properties, old(notes), encode)
    {
      properties := properties + items;
      Invalidate();
    }

    /** `buffer()`. */
    method Buffer() returns (b: string)
      modifies this
      ensures b == BufferOf(notes)
      ensures hasNotes && properties == old(properties) && notes == old(notes)
    {
      EnsureNotes();
      b := BufferOf(notes);
    }

    /** `setBuffer(buffer)`: nothing for ''; otherwise the decoded map (or {}) replaces the properties and is dumped back. */
    method SetBuffer(buffer: string)
      modifies this
      ensures |buffer| == 0 ==> properties == old(properties) && notes == old(notes) && hasNotes == old(hasNotes)
      ensures |buffer| > 0 ==>
        && properties == Loaded(buffer, old(properties), decode)
        && hasNotes && notes == NotesAfter(properties, old(notes), encode)
    {
      if |buffer| == 0 {
        return;
      }
      EnsureNotes();
      var decoded := decode(buffer);
      if decoded.Some? {
        properties := decoded.value;
      } else {
        properties := map[];
      }
      Invalidate();
    }

    /** `reload`: `setBuffer(buffer())`. */
    method Reload()
      modifies this
      ensures properties == Loaded(BufferOf(old(notes)), old(properties), decode)
      ensures notes == (if BufferOf(old(notes)) == "" then old(notes) else NotesAfter(properties, old(notes), encode))
      ensures hasNotes
    {
      var b := Buffer();
      SetBuffer(b);
    }
  }
}
