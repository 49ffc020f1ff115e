/**
 The property-list values carried in usbmuxd payloads, and the codec that turns them
 into bytes. The codec itself (XML property-list text) is not modelled: it is a
 parameter of every operation that needs it.
 */
module Plist {
  import opened Bytes
  import opened Results

  /** A property-list value: the payloads use strings, integers and ordered dictionaries. */
  datatype Value = Str(s: string) | Int(i: int) | Dict(entries: seq<Entry>)

  datatype Entry = Entry(key: string, value: Value)

  /** An encoder and a decoder of property lists; `decode` answers `None` on malformed text. */
  datatype Codec = Codec(encode: Value -> seq<byte>, decode: seq<byte> -> Option<Value>)

  /** The decoder reads back exactly what the encoder wrote, for the value `v`. */
  ghost predicate ReadsBack(c: Codec, v: Value)
  {
    c.decode(c.encode(v)) == Some(v)
  }

  /** The value of the first entry named `key`, as a dictionary lookup in the decoded object. */
  function Lookup(entries: seq<Entry>, key: string): (r: Option<Value>)
    ensures r.None? <==> forall i :: 0 <= i < |entries| ==> entries[i].key != key
    ensures r.Some? ==>
      exists i :: 0 <= i < |entries| && entries[i] == Entry(key, r.value)
        && forall j :: 0 <= j < i ==> entries[j].key != key
  {
    if |entries| == 0 then None
    else if entries[0].key == key then Some(entries[0].value)
    else
      var r := Lookup(entries[1..], key);
      assert forall i :: 1 <= i < |entries| ==> entries[i] == entries[1..][i - 1];
      if r.Some? then
        var i :| 0 <= i < |entries[1..]| && entries[1..][i] == Entry(key, r.value)
          && forall j :: 0 <= j < i ==> entries[1..][j].key != key;
        assert entries[i + 1] == Entry(key, r.value);
        r
      else r
  }

  /** An entry whose key no earlier entry carries is the one a lookup of that key finds. */
  lemma LookupAt(entries: seq<Entry>, i: nat)
    requires i < |entries|
    requires forall j :: 0 <= j < i ==> entries[j].key != entries[i].key
    ensures Lookup(entries, entries[i].key) == Some(entries[i].value)
  {
    var r := Lookup(entries, entries[i].key);
    var k :| 0 <= k < |entries| && entries[k] == Entry(entries[i].key, r.value)
      && forall j :: 0 <= j < k ==> entries[j].key != entries[i].key;
    assert k == i;
  }

  /** The field `key` of a dictionary value; `None` for a missing key or a non-dictionary. */
  function Field(v: Value, key: string): (r: Option<Value>)
    ensures r.Some? ==> v.Dict?
  {
    if v.Dict? then Lookup(v.entries, key) else None
  }

  /** The keys of a dictionary's entries, in order. */
  function Keys(entries: seq<Entry>): (ks: seq<string>)
    ensures |ks| == |entries|
    ensures forall i :: 0 <= i < |entries| ==> ks[i] == entries[i].key
    decreases |entries|
  {
    if |entries| == 0 then [] else [entries[0].key] + Keys(entries[1..])
  }
}
