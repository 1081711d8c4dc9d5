/**
 PATCH semantics: a shallow merge of two JSON objects, and otherwise a replacement. Objects are maps
 from field name to value; a field set to null stays, unlike in section 2 of RFC 7386, where a
 null deletes.
 */
module JsonMerge {
  import opened Prelude
  import opened AtomicMap
  import opened Slices

  datatype Json =
    | Null
    | Bool(b: bool)
    | Number(text: string)
    | String(s: string)
    | Array(items: seq<Json>)
    | Object(fields: map<string, Json>)

  /** Both objects: delta's fields win. Anything else: delta replaces. */
  function Merged(current: Json, delta: Json): Json {
    if current.Object? && delta.Object? then Object(current.fields + delta.fields) else delta
  }

  // ---------------------------------------------------------------- the code, over an unseen codec

  /**
   What the code needs of a JSON library. `decode` gives the value of a valid text; decoding into a
   field map succeeds on objects and, with no fields, on the literal null; `encode` writes an object.
   */
  datatype Codec = Codec(decode: Bytes -> Option<Json>, encode: map<string, Json> -> Bytes) {

    function Unmarshal(raw: Bytes): Option<map<string, Json>> {
      match decode(raw)
      case Some(Object(fields)) => Some(fields)
      case Some(Null) => Some(map[])
      case _ => None
    }

    /** A valid text is an object exactly when its first byte after white space is an opening brace. */
    ghost predicate BraceMeansObject() {
      forall raw :: decode(raw).Some? ==> (decode(raw).value.Object? <==> StartsWithBrace(raw))
    }

    /** If both texts are objects, what is encoded for their union decodes to it: its fields all came from texts. */
    ghost predicate EncodesUnion(a: Bytes, b: Bytes) {
      match (decode(a), decode(b))
      case (Some(Object(fa)), Some(Object(fb))) => decode(encode(fa + fb)) == Some(Object(fa + fb))
      case _ => true
    }

    ghost predicate Lawful() {
      BraceMeansObject() && forall a, b :: EncodesUnion(a, b)
    }

    /** The field map of a text that is an object. */
    function AsObject(raw: Bytes): Option<map<string, Json>> {
      if !StartsWithBrace(raw) then None else Unmarshal(raw)
    }
  }

  const BRACE: Byte := 0x7B

  predicate IsBlank(b: Byte) { b == 0x20 || b == 0x09 || b == 0x0D || b == 0x0A }

  function TrimBlanks(raw: Bytes): Bytes {
    if raw != [] && IsBlank(raw[0]) then TrimBlanks(raw[1..]) else raw
  }

  predicate StartsWithBrace(raw: Bytes) {
    var trimmed := TrimBlanks(raw);
    trimmed != [] && trimmed[0] == BRACE
  }

  /** The test skips the white space of section 2 of RFC 8259 and looks for an opening brace, and nothing more. */
  lemma {:induction false} LeadingByteDecides(blanks: Bytes, first: Byte, rest: Bytes)
    requires forall b :: b in blanks ==> b in {0x20, 0x09, 0x0A, 0x0D}
    requires first !in {0x20, 0x09, 0x0A, 0x0D}
    ensures StartsWithBrace(blanks + [first] + rest) <==> first == 0x7B
    ensures !StartsWithBrace(blanks)
  {
    if blanks == [] {
      assert ([first] + rest)[0] == first && [] + [first] + rest == [first] + rest;
    } else {
      var text := blanks + [first] + rest;
      assert blanks[0] in blanks && text[0] == blanks[0] && text[1..] == blanks[1..] + [first] + rest;
      assert forall b :: b in blanks[1..] ==> b in blanks;
      LeadingByteDecides(blanks[1..], first, rest);
    }
  }

  /** The leading-byte test is what keeps the literal null from passing as an empty object. */
  lemma {:induction false} AsObjectIsExact(codec: Codec, raw: Bytes)
    requires codec.BraceMeansObject()
    ensures codec.AsObject(raw) ==
            match codec.decode(raw) case Some(Object(fields)) => Some(fields) case _ => None
    ensures codec.decode(raw) == Some(Null) ==> codec.Unmarshal(raw) == Some(map[]) && codec.AsObject(raw).None?
  {
  }

  /** The loop over the delta's fields, in whatever order they come: each overwrites its field of the current object. */
  method Overlay(current: map<string, Json>, delta: map<string, Json>) returns (merged: map<string, Json>)
    ensures merged == current + delta
  {
    merged := current;
    var left := delta.Keys;
    while left != {}
      invariant left <= delta.Keys
      invariant merged == current + (map k | k in delta && k !in left :: delta[k])
      decreases left
    {
      var k :| k in left;
      merged := merged[k := delta[k]];
      left := left - {k};
    }
    assert (map k | k in delta && k !in left :: delta[k]) == delta;
  }

  /**
   The merge of two slices. It writes through neither, and its result is a slice that nobody else has,
   on both branches: the store publishes it without a further copy.
   */
  method ApplySlice(codec: Codec, current: Slice, delta: Slice) returns (out: Slice)
    ensures fresh(out) && out[..] == MergeText(codec, current[..], delta[..])
  {
    var cur, del := codec.AsObject(current[..]), codec.AsObject(delta[..]);
    if cur.None? || del.None? {
      out := Clone(delta);
    } else {
      var merged := Overlay(cur.value, del.value);
      out := Allocate(codec.encode(merged));
    }
  }

  /** The bytes of a merge: the union of the fields with the delta's winning, or the delta as it is. */
  function MergeText(codec: Codec, current: Bytes, delta: Bytes): Bytes {
    var cur, del := codec.AsObject(current), codec.AsObject(delta);
    if cur.None? || del.None? then delta else codec.encode(cur.value + del.value)
  }

  /** The merge of texts as the store takes it: a function of two values. */
  function Merger(codec: Codec): (Bytes, Bytes) -> Bytes { (current, delta) => MergeText(codec, current, delta) }

  /**
   On texts that decode, merging texts is merging values, so the result decodes as well; and when the
   merge replaces, the stored bytes are the delta's own.
   */
  lemma {:induction false} TextMergesAsValues(codec: Codec, current: Bytes, delta: Bytes)
    requires codec.Lawful() && codec.decode(current).Some? && codec.decode(delta).Some?
    ensures codec.decode(MergeText(codec, current, delta)) ==
            Some(Merged(codec.decode(current).value, codec.decode(delta).value))
    ensures !(codec.decode(current).value.Object? && codec.decode(delta).value.Object?) ==>
              MergeText(codec, current, delta) == delta
  {
    assert codec.EncodesUnion(current, delta);
  }

  // ---------------------------------------------------------------- the meaning of a run of writes

  /** An accepted PUT or PATCH. */
  datatype JsonWrite = JsonWrite(mode: Mode, body: Json)

  /** The document after a run of accepted writes to one key; the first one creates it. */
  function Document(writes: seq<JsonWrite>): Json
    requires writes != []
  {
    var last := |writes| - 1;
    if last == 0 || writes[last].mode == Replace then writes[last].body
    else Merged(Document(writes[..last]), writes[last].body)
  }

  /** A write whose fields owe nothing to the writes before it: a PUT, or a value that is no object. */
  predicate Resets(w: JsonWrite) { w.mode == Replace || !w.body.Object? }

  /** The last write that resets the document, or else the first write. */
  function Base(writes: seq<JsonWrite>): (b: nat)
    requires writes != []
    ensures b < |writes|
    ensures b == 0 || Resets(writes[b])
    ensures forall i :: b < i < |writes| ==> !Resets(writes[i])
  {
    var last := |writes| - 1;
    if last == 0 || Resets(writes[last]) then last else Base(writes[..last])
  }

  ghost predicate Sets(w: JsonWrite, f: string) { w.body.Object? && f in w.body.fields }

  /** Write i is the last one, from write b on, that set field f. */
  ghost predicate LastSetter(writes: seq<JsonWrite>, b: nat, i: nat, f: string) {
    && b <= i < |writes|
    && Sets(writes[i], f)
    && forall j :: i < j < |writes| ==> !Sets(writes[j], f)
  }

  /** What the history says about field f of the document. */
  ghost predicate FieldAsWritten(writes: seq<JsonWrite>, b: nat, doc: Json, f: string)
    requires doc.Object?
  {
    && (f in doc.fields <==> exists i: nat :: LastSetter(writes, b, i, f))
    && forall i: nat :: LastSetter(writes, b, i, f) ==> f in doc.fields && doc.fields[f] == writes[i].body.fields[f]
  }

  /**
   A document is read off its history directly: if the last write is no object, it is the document;
   otherwise every top-level field comes, whole, from the last write since the base that set it, and
   a field that no such write set is not there. A null counts as a value like any other.
   */
  lemma {:induction false} DocumentFromHistory(writes: seq<JsonWrite>)
    requires writes != []
    ensures var last, doc := writes[|writes| - 1].body, Document(writes);
            if !last.Object? then doc == last
            else doc.Object? && forall f :: FieldAsWritten(writes, Base(writes), doc, f)
  {
    if writes[|writes| - 1].body.Object? {
      forall f ensures Document(writes).Object? && FieldAsWritten(writes, Base(writes), Document(writes), f) {
        FieldFromHistory(writes, f);
      }
      FieldFromHistory(writes, "");
    }
  }

  lemma {:induction false} FieldFromHistory(writes: seq<JsonWrite>, f: string)
    requires writes != [] && writes[|writes| - 1].body.Object?
    ensures Document(writes).Object? && FieldAsWritten(writes, Base(writes), Document(writes), f)
  {
    var n := |writes| - 1;
    if n == 0 || Resets(writes[n]) {
      OnlyLastSets(writes, n, f);
    } else if !writes[n - 1].body.Object? {
      OnlyLastSets(writes, n - 1, f);
      assert Base(writes) == n - 1 && Document(writes) == writes[n].body;
    } else {
      FieldFromHistory(writes[..n], f);
      assert Document(writes) == Merged(Document(writes[..n]), writes[n].body);
      PatchedField(writes, Base(writes), Document(writes[..n]), f);
    }
  }

  lemma {:induction false} PatchedField(writes: seq<JsonWrite>, b: nat, doc: Json, f: string)
    requires |writes| > 1 && b < |writes| - 1 && doc.Object? && writes[|writes| - 1].body.Object?
    requires FieldAsWritten(writes[..|writes| - 1], b, doc, f)
    ensures FieldAsWritten(writes, b, Merged(doc, writes[|writes| - 1].body), f)
  {
    var n := |writes| - 1;
    SetterAfterPatch(writes, b, f);
    if Sets(writes[n], f) {
      assert LastSetter(writes, b, n, f);
    } else {
      forall i: nat | LastSetter(writes[..n], b, i, f)
        ensures LastSetter(writes, b, i, f) && writes[i] == writes[..n][i]
      {}
    }
  }

  /** From a base whose later writes all are the last one, only the last one can have set a field. */
  lemma {:induction false} OnlyLastSets(writes: seq<JsonWrite>, b: nat, f: string)
    requires writes != [] && (b == |writes| - 1 || (b == |writes| - 2 && !writes[b].body.Object?))
    ensures forall i: nat :: LastSetter(writes, b, i, f) <==> i == |writes| - 1 && Sets(writes[i], f)
  {
  }

  /** One more object PATCH: the fields it sets are its own, the others keep the setter they had. */
  lemma {:induction false} SetterAfterPatch(writes: seq<JsonWrite>, b: nat, f: string)
    requires |writes| > 1 && b < |writes| - 1
    ensures var n := |writes| - 1;
            forall i: nat :: LastSetter(writes, b, i, f) <==>
              if Sets(writes[n], f) then i == n else LastSetter(writes[..n], b, i, f)
  {
  }

  /** The accepted writes to k in a run of calls on the store, oldest first. */
  function AcceptedWrites(calls: seq<Call<Json>>, k: Key): seq<JsonWrite> {
    if calls == [] then [] else
      var last := |calls| - 1;
      AcceptedWrites(calls[..last], k) +
      if AcceptedAt(Merged, calls, last, k) then [JsonWrite(calls[last].op.mode, calls[last].op.body)] else []
  }

  /** What a store of values holds for a key is the document its accepted writes describe. */
  lemma {:induction false} StoredDocument(calls: seq<Call<Json>>, k: Key)
    ensures var m, writes := After(Merged, calls), AcceptedWrites(calls, k);
            && (k in m <==> writes != [])
            && (k in m ==> m[k].value == Document(writes))
  {
    if calls == [] {
    } else {
      var last := |calls| - 1;
      var before, call := calls[..last], calls[last];
      StoredDocument(before, k);
      TargetSlot(Merged, After(Merged, before), call);
      if call.Target() != k {
        OtherKeysKept(Merged, After(Merged, before), call, k);
        assert AcceptedWrites(calls, k) == AcceptedWrites(before, k);
      } else if AcceptedAt(Merged, calls, last, k) {
        var writes := AcceptedWrites(calls, k);
        assert writes[..|writes| - 1] == AcceptedWrites(before, k);
      } else {
        RejectedChangesNothing(Merged, After(Merged, before), call);
        assert AcceptedWrites(calls, k) == AcceptedWrites(before, k);
      }
    }
  }

  /**
   Merging is associative except in one situation: object, non-object, object, where the first object
   has a field the last one lacks.
   */
  lemma {:induction false} MergeAssociates(a: Json, b: Json, c: Json)
    ensures Merged(Merged(a, b), c) == Merged(a, Merged(b, c)) <==>
            !(a.Object? && !b.Object? && c.Object? && !(a.fields.Keys <= c.fields.Keys))
  {
  }
}
