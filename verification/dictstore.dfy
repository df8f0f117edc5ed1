/**
 * The translation dictionary kept on the server: `save_dict` stores the
 * entry of one tag, or removes the tag when the entry is `None`, and leaves
 * every other tag as it was.
 */
module DictStore {
  import opened Strings

  /** A dictionary entry: `{ "translation": …, "preference": … }`. */
  datatype Entry = Entry(translation: string, preference: int)

  /** The reply of `save_dict`: the whole dictionary after the change, or the error for a missing tag. */
  datatype SaveReply = Saved(dictionary: map<string, Entry>) | MissingTag

  /** The dictionary after storing `entry` under `tag` (removing `tag` when there is no entry). */
  function Updated(m: map<string, Entry>, tag: string, entry: Option<Entry>): (r: map<string, Entry>)
    ensures entry.None? ==> tag !in r
    ensures entry.Some? ==> tag in r && r[tag] == entry.value
    ensures forall k :: k != tag ==> (k in r <==> k in m)
    ensures forall k :: k != tag && k in m ==> r[k] == m[k]
  {
    if entry.None? then m - {tag} else m[tag := entry.value]
  }

  /** Storing the same entry twice is storing it once. */
  lemma UpdatedIdempotent(m: map<string, Entry>, tag: string, entry: Option<Entry>)
    ensures Updated(Updated(m, tag, entry), tag, entry) == Updated(m, tag, entry)
  {
    var once := Updated(m, tag, entry);
    assert Updated(once, tag, entry).Keys == once.Keys;
  }

  /** The last save of a tag decides its entry: an earlier save of the same tag leaves no trace. */
  lemma UpdatedOverwrites(m: map<string, Entry>, tag: string, first: Option<Entry>, second: Option<Entry>)
    ensures Updated(Updated(m, tag, first), tag, second) == Updated(m, tag, second)
  {
    var a, b := Updated(Updated(m, tag, first), tag, second), Updated(m, tag, second);
    assert a.Keys == b.Keys;
  }

  /** Saves of two different tags commute. */
  lemma UpdatedCommute(m: map<string, Entry>, t1: string, e1: Option<Entry>, t2: string, e2: Option<Entry>)
    requires t1 != t2
    ensures Updated(Updated(m, t1, e1), t2, e2) == Updated(Updated(m, t2, e2), t1, e1)
  {
    var a, b := Updated(Updated(m, t1, e1), t2, e2), Updated(Updated(m, t2, e2), t1, e1);
    assert a.Keys == b.Keys;
  }

  /** Removing a tag the dictionary does not hold changes nothing. */
  lemma RemoveAbsent(m: map<string, Entry>, tag: string)
    requires tag !in m
    ensures Updated(m, tag, None) == m
  {
    assert Updated(m, tag, None).Keys == m.Keys;
  }

  /** The dictionary file, held as the map `json.load` would give. */
  class Store {
    var entries: map<string, Entry>

    constructor(initial: map<string, Entry>)
      ensures entries == initial
    {
      entries := initial;
    }

    /**
     * `save_dict`: a missing or empty tag is an error and changes nothing;
     * otherwise a `None` entry deletes the tag when present, any other
     * entry is assigned to it, and the new dictionary is returned.
     */
    method SaveDict(tag: Option<string>, entry: Option<Entry>) returns (reply: SaveReply)
      modifies this
      ensures tag.None? || tag.value == "" ==> reply == MissingTag && entries == old(entries)
      ensures tag.Some? && tag.value != "" ==>
        entries == Updated(old(entries), tag.value, entry) && reply == Saved(entries)
    {
      if tag.None? || tag.value == "" {
        return MissingTag;
      }
      var t := tag.value;
      if entry.None? {
        if t in entries {
          entries := entries - {t};
        }
      } else {
        entries := entries[t := entry.value];
      }
      reply := Saved(entries);
    }
  }
}
