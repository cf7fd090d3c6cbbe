/** The registration record shared by registry and discovery, its stored
    (JSON) form, and the default instance-selection strategy. */
module ServiceEntity {
  import opened Base
  import opened Text

  /** A JSON value, as far as a stored record needs one: strings and null
      are explicit, and every other value (a number, a boolean, an array,
      or an object nested inside metadata) is kept as its JSON text. */
  datatype Value = Str(s: string) | Null | Raw(text: string)

  /** A metadata value (Go `interface{}`): a JSON value, or a value that
      encoding/json refuses to marshal (a channel, a function, NaN). */
  datatype MetaValue = Plain(v: Value) | Unmarshalable(kind: string)

  /** hestia.Service. */
  datatype Service = Service(
    network: string,
    name: string,
    address: string,
    instanceId: string,
    version: string,
    created: string,
    metadata: map<string, MetaValue>,
    tags: map<string, string>)

  /** The record json.Unmarshal starts from: every field at its zero value. */
  const ZeroService := Service("", "", "", "", "", "", map[], map[])

  /** The JSON keys of a stored record, in field order: the six string
      fields, then metadata (index 6) and tags (index 7). */
  const FieldKeys: seq<string> := ["network", "name", "address", "instance_id", "version", "created", "metadata", "tags"]

  /** The value of a member of a stored record: a JSON value, or a JSON
      object (a later duplicate key inside it has already replaced the
      earlier one). */
  datatype Json = Scalar(v: Value) | Obj(entries: map<string, Value>)

  /** The bytes stored under a key: a JSON object (its members in order),
      the JSON literal null, or anything else. The last covers bytes that
      are not JSON and JSON values other than an object or null;
      json.Unmarshal rejects both. */
  datatype Blob = Object(members: seq<(string, Json)>) | NullBlob | Malformed(bytes: seq<byte>)

  /** The string field with key FieldKeys[i]. */
  function StringOf(s: Service, i: nat): string
    requires i < 6
  {
    match i
    case 0 => s.network
    case 1 => s.name
    case 2 => s.address
    case 3 => s.instanceId
    case 4 => s.version
    case _ => s.created
  }

  /** Sets the string field with key FieldKeys[i] and nothing else. */
  function WithString(s: Service, i: nat, v: string): (r: Service)
    requires i < 6
    ensures StringOf(r, i) == v
    ensures forall j :: j < 6 && j != i ==> StringOf(r, j) == StringOf(s, j)
    ensures r.metadata == s.metadata && r.tags == s.tags
  {
    match i
    case 0 => s.(network := v)
    case 1 => s.(name := v)
    case 2 => s.(address := v)
    case 3 => s.(instanceId := v)
    case 4 => s.(version := v)
    case _ => s.(created := v)
  }

  /** The metadata object json.Marshal writes. */
  function MetaObject(m: map<string, MetaValue>): map<string, Value>
    requires forall k :: k in m ==> m[k].Plain?
  {
    map k | k in m :: m[k].v
  }

  /** The tags object json.Marshal writes. */
  function TagsObject(t: map<string, string>): map<string, Value> {
    map k | k in t :: Str(t[k])
  }

  /** The members json.Marshal writes for a Service: one per field, in
      field order, under FieldKeys. Go writes a nil metadata or tags map
      as `null`; the model has no nil map and writes an empty object, and
      Unmarshal reads both back as the empty map. */
  function Members(s: Service): (ms: seq<(string, Json)>)
    requires forall k :: k in s.metadata ==> s.metadata[k].Plain?
    ensures |ms| == |FieldKeys| && forall i :: 0 <= i < |FieldKeys| ==> ms[i].0 == FieldKeys[i]
  {
    [("network", Scalar(Str(s.network))),
     ("name", Scalar(Str(s.name))),
     ("address", Scalar(Str(s.address))),
     ("instance_id", Scalar(Str(s.instanceId))),
     ("version", Scalar(Str(s.version))),
     ("created", Scalar(Str(s.created))),
     ("metadata", Obj(MetaObject(s.metadata))),
     ("tags", Obj(TagsObject(s.tags)))]
  }

  /** json.Marshal of a Service: the object of its members; it fails when
      a metadata value cannot be marshalled. */
  function Marshal(s: Service): (r: Result<Blob, string>)
    ensures r.Success? <==> forall k :: k in s.metadata ==> s.metadata[k].Plain?
    ensures r.Success? ==> r.value.Object? && |r.value.members| == |FieldKeys|
    ensures r.Success? ==> forall i :: 0 <= i < 6 ==> r.value.members[i] == (FieldKeys[i], Scalar(Str(StringOf(s, i))))
    ensures r.Success? ==> r.value.members[6] == (FieldKeys[6], Obj(MetaObject(s.metadata)))
    ensures r.Success? ==> r.value.members[7] == (FieldKeys[7], Obj(TagsObject(s.tags)))
  {
    if exists k :: k in s.metadata && s.metadata[k].Unmarshalable? then
      Failure("json: unsupported type")
    else
      Success(Object(Members(s)))
  }

  /** Position of the first `x` in `xs`. */
  function Find(xs: seq<string>, x: string): (r: Option<nat>)
    ensures r.Some? ==> r.value < |xs| && xs[r.value] == x && x !in xs[..r.value]
    ensures r.None? ==> x !in xs
  {
    if |xs| == 0 then None
    else if xs[0] == x then Some(0)
    else
      match Find(xs[1..], x)
      case None => None
      case Some(i) =>
        assert xs[..i + 1] == [xs[0]] + xs[1..][..i];
        Some(i + 1)
  }

  /** The field a member key selects, as json.Unmarshal finds it: the
      field whose tag is the key, failing that the one whose tag equals the
      key up to the case of ASCII letters. */
  function FieldIndex(key: string): (r: Option<nat>)
    ensures r.Some? ==> r.value < |FieldKeys| && (key == FieldKeys[r.value] || ToLower(key) == FieldKeys[r.value])
    ensures r.None? ==> forall i :: 0 <= i < |FieldKeys| ==> key != FieldKeys[i] && ToLower(key) != FieldKeys[i]
  {
    match Find(FieldKeys, key)
    case Some(i) => Some(i)
    case None => Find(FieldKeys, ToLower(key))
  }

  /** A member with the field its key selects: (field index, value). */
  type Slot = (Option<nat>, Json)

  /** The members of an object with their keys resolved to fields. */
  function ResolveKeys(ms: seq<(string, Json)>): (rs: seq<Slot>)
    ensures |rs| == |ms| && forall j :: 0 <= j < |ms| ==> rs[j] == (FieldIndex(ms[j].0), ms[j].1)
  {
    seq(|ms|, j requires 0 <= j < |ms| => (FieldIndex(ms[j].0), ms[j].1))
  }

  /** A member that holds a string for field i. */
  predicate StrMember(m: Slot, i: nat) {
    m.0 == Some(i) && m.1.Scalar? && m.1.v.Str?
  }

  /** A member that holds null for field i. */
  predicate NullMember(m: Slot, i: nat) {
    m.0 == Some(i) && m.1 == Scalar(Null)
  }

  /** A member that holds an object for field i. */
  predicate ObjMember(m: Slot, i: nat) {
    m.0 == Some(i) && m.1.Obj?
  }

  /** An object whose values can go into a map[string]string. */
  predicate TagValues(o: map<string, Value>) {
    forall k :: k in o ==> o[k].Str? || o[k].Null?
  }

  /** A member's value fits the Go type of its field: a string or null for
      the six string fields, an object or null for metadata, an object of
      strings and nulls or null for tags. A member whose key selects no
      field fits anything. */
  predicate MemberFits(m: Slot) {
    match m.0
    case None => true
    case Some(i) =>
      if i < 6 then NullMember(m, i) || StrMember(m, i)
      else if i == 6 then NullMember(m, i) || ObjMember(m, i)
      else if i == 7 then NullMember(m, i) || (ObjMember(m, i) && TagValues(m.1.entries))
      else true
  }

  /** A tags element: the string, or "" for a JSON null. */
  function TagString(v: Value): string {
    if v.Str? then v.s else ""
  }

  /** The metadata entries a decoded object adds. */
  function MetaEntries(o: map<string, Value>): map<string, MetaValue> {
    map k | k in o :: Plain(o[k])
  }

  /** The tags entries a decoded object adds. */
  function TagEntries(o: map<string, Value>): map<string, string> {
    map k | k in o :: TagString(o[k])
  }

  /** Decodes one member into the record decoded so far, as json.Unmarshal
      does: a string replaces the field, null leaves a string field alone
      and empties a map field, and an object is merged into the map already
      there. None when the value does not fit the field (json.Unmarshal
      reports the type error). */
  function StoreMember(s: Service, m: Slot): Option<Service> {
    match m.0
    case None => Some(s)
    case Some(i) =>
      if !MemberFits(m) then None
      else if i < 6 then
        if StrMember(m, i) then Some(WithString(s, i, m.1.v.s)) else Some(s)
      else if i == 6 then
        if ObjMember(m, i) then Some(s.(metadata := s.metadata + MetaEntries(m.1.entries)))
        else Some(s.(metadata := map[]))
      else if i == 7 then
        if ObjMember(m, i) then Some(s.(tags := s.tags + TagEntries(m.1.entries)))
        else Some(s.(tags := map[]))
      else Some(s)
  }

  /** Decodes the members in order, starting from the zero Service. */
  function DecodeMembers(ms: seq<Slot>): Option<Service> {
    if |ms| == 0 then Some(ZeroService)
    else
      match DecodeMembers(ms[..|ms| - 1])
      case None => None
      case Some(s) => StoreMember(s, ms[|ms| - 1])
  }

  /** json.Unmarshal into a fresh Service: a JSON null leaves the zero
      Service and is no error; an object decodes when every member fits its
      field; anything else is an error. */
  function Unmarshal(b: Blob): (r: Option<Service>)
    ensures b.Malformed? ==> r.None?
    ensures b.NullBlob? ==> r == Some(ZeroService)
    ensures b.Object? ==> (r.Some? <==> forall j :: 0 <= j < |b.members| ==> MemberFits(ResolveKeys(b.members)[j]))
  {
    match b
    case Malformed(_) => None
    case NullBlob => Some(ZeroService)
    case Object(ms) =>
      DecodeFits(ResolveKeys(ms));
      DecodeMembers(ResolveKeys(ms))
  }

  /** Decoding succeeds exactly when every member fits its field. */
  lemma {:induction false} DecodeFits(ms: seq<Slot>)
    ensures DecodeMembers(ms).Some? <==> forall j :: 0 <= j < |ms| ==> MemberFits(ms[j])
  {
    if |ms| > 0 {
      var init := ms[..|ms| - 1];
      DecodeFits(init);
      assert forall j :: 0 <= j < |init| ==> init[j] == ms[j];
    }
  }

  /** ms[j] is the last member that holds a string for field i. */
  predicate LastStr(ms: seq<Slot>, i: nat, j: int) {
    0 <= j < |ms| && StrMember(ms[j], i) && forall l :: j < l < |ms| ==> !StrMember(ms[l], i)
  }

  /** ms[j] is the last member that writes key k of map field i, and no
      null for that field follows it. */
  predicate MapWriter(ms: seq<Slot>, i: nat, k: string, j: int) {
    && 0 <= j < |ms| && ObjMember(ms[j], i) && k in ms[j].1.entries
    && forall l :: j < l < |ms| ==> !NullMember(ms[l], i) && !(ObjMember(ms[l], i) && k in ms[l].1.entries)
  }

  /** How one stored member changes a string field. */
  lemma StoreString(s: Service, m: Slot, i: nat)
    requires i < 6 && StoreMember(s, m).Some?
    ensures StrMember(m, i) ==> StringOf(StoreMember(s, m).value, i) == m.1.v.s
    ensures !StrMember(m, i) ==> StringOf(StoreMember(s, m).value, i) == StringOf(s, i)
  {
  }

  /** A string field ends with the last string given for it, whatever
      nulls, other fields and unknown keys follow. */
  lemma {:induction false} DecodeStringLast(ms: seq<Slot>, i: nat, j: nat)
    requires i < 6 && DecodeMembers(ms).Some? && LastStr(ms, i, j)
    ensures StringOf(DecodeMembers(ms).value, i) == ms[j].1.v.s
  {
    var init := ms[..|ms| - 1];
    var m := ms[|ms| - 1];
    StoreString(DecodeMembers(init).value, m, i);
    if j < |ms| - 1 {
      assert LastStr(init, i, j) by {
        assert forall l :: j < l < |init| ==> init[l] == ms[l];
      }
      DecodeStringLast(init, i, j);
    }
  }

  /** A string field no member gives a string for stays "". */
  lemma {:induction false} DecodeStringUnset(ms: seq<Slot>, i: nat)
    requires i < 6 && DecodeMembers(ms).Some?
    requires forall j :: 0 <= j < |ms| ==> !StrMember(ms[j], i)
    ensures StringOf(DecodeMembers(ms).value, i) == ""
  {
    if |ms| > 0 {
      var init := ms[..|ms| - 1];
      StoreString(DecodeMembers(init).value, ms[|ms| - 1], i);
      assert forall j :: 0 <= j < |init| ==> init[j] == ms[j];
      DecodeStringUnset(init, i);
    }
  }

  /** How one stored member changes key k of the metadata. */
  lemma StoreMeta(s: Service, m: Slot, k: string)
    requires StoreMember(s, m).Some?
    ensures var md := StoreMember(s, m).value.metadata;
      if NullMember(m, 6) then k !in md
      else if ObjMember(m, 6) && k in m.1.entries then k in md && md[k] == Plain(m.1.entries[k])
      else (k in md <==> k in s.metadata) && (k in md ==> md[k] == s.metadata[k])
  {
  }

  /** A metadata key holds the value of the last object that gives it,
      provided no null for metadata follows; objects given for metadata
      merge. */
  lemma {:induction false} DecodeMetadata(ms: seq<Slot>, k: string)
    requires DecodeMembers(ms).Some?
    ensures var md := DecodeMembers(ms).value.metadata;
      && (k in md <==> exists j :: MapWriter(ms, 6, k, j))
      && forall j :: MapWriter(ms, 6, k, j) ==> k in md && md[k] == Plain(ms[j].1.entries[k])
  {
    if |ms| > 0 {
      var init := ms[..|ms| - 1];
      var m := ms[|ms| - 1];
      var s := DecodeMembers(init).value;
      DecodeMetadata(init, k);
      StoreMeta(s, m, k);
      assert forall j :: 0 <= j < |init| ==> init[j] == ms[j];
      if !NullMember(m, 6) && !(ObjMember(m, 6) && k in m.1.entries) {
        forall j | MapWriter(init, 6, k, j)
          ensures MapWriter(ms, 6, k, j)
        {
        }
        forall j | MapWriter(ms, 6, k, j)
          ensures MapWriter(init, 6, k, j)
        {
        }
      } else if ObjMember(m, 6) && k in m.1.entries {
        assert MapWriter(ms, 6, k, |ms| - 1);
      }
    }
  }

  /** How one stored member changes key k of the tags. */
  lemma StoreTags(s: Service, m: Slot, k: string)
    requires StoreMember(s, m).Some?
    ensures var t := StoreMember(s, m).value.tags;
      if NullMember(m, 7) then k !in t
      else if ObjMember(m, 7) && k in m.1.entries then k in t && t[k] == TagString(m.1.entries[k])
      else (k in t <==> k in s.tags) && (k in t ==> t[k] == s.tags[k])
  {
    if ObjMember(m, 7) && k !in m.1.entries {
      assert k !in TagEntries(m.1.entries);
    }
  }

  /** A tags key holds the last string given for it ("" for a null),
      provided no null for tags follows; objects given for tags merge. */
  lemma {:induction false} DecodeTags(ms: seq<Slot>, k: string)
    requires DecodeMembers(ms).Some?
    ensures var t := DecodeMembers(ms).value.tags;
      && (k in t <==> exists j :: MapWriter(ms, 7, k, j))
      && forall j :: MapWriter(ms, 7, k, j) ==> k in t && t[k] == TagString(ms[j].1.entries[k])
  {
    if |ms| > 0 {
      var init := ms[..|ms| - 1];
      var m := ms[|ms| - 1];
      var s := DecodeMembers(init).value;
      DecodeTags(init, k);
      StoreTags(s, m, k);
      assert forall j :: 0 <= j < |init| ==> init[j] == ms[j];
      if !NullMember(m, 7) && !(ObjMember(m, 7) && k in m.1.entries) {
        forall j | MapWriter(init, 7, k, j)
          ensures MapWriter(ms, 7, k, j)
        {
        }
        forall j | MapWriter(ms, 7, k, j)
          ensures MapWriter(init, 7, k, j)
        {
        }
      } else if ObjMember(m, 7) && k in m.1.entries {
        assert MapWriter(ms, 7, k, |ms| - 1);
      }
    }
  }

  /** No two fields share a JSON key. */
  lemma FieldKeysDistinct()
    ensures forall i, j :: 0 <= i < j < |FieldKeys| ==> FieldKeys[i] != FieldKeys[j]
  {
    var k := FieldKeys;
    assert k[0][0] == 'n' && k[1][0] == 'n' && k[2][0] == 'a' && k[3][0] == 'i';
    assert k[4][0] == 'v' && k[5][0] == 'c' && k[6][0] == 'm' && k[7][0] == 't';
    assert |k[0]| != |k[1]|;
  }

  /** Each tag selects its own field. */
  lemma FieldIndexOfKey(i: nat)
    requires i < |FieldKeys|
    ensures FieldIndex(FieldKeys[i]) == Some(i)
  {
    FieldKeysDistinct();
  }

  /** A key that is no tag but spells one in other letter case selects
      that tag's field: "Name" and "NAME" select the name. */
  lemma FieldIndexIgnoresCase(key: string, i: nat)
    requires i < |FieldKeys| && key !in FieldKeys && ToLower(key) == FieldKeys[i]
    ensures FieldIndex(key) == Some(i)
  {
    FieldKeysDistinct();
  }

  /** In the members json.Marshal writes, member i selects field i. */
  lemma ResolveMembers(s: Service)
    requires forall k :: k in s.metadata ==> s.metadata[k].Plain?
    ensures var rs := ResolveKeys(Members(s));
      |rs| == |FieldKeys| && forall i :: 0 <= i < |FieldKeys| ==> rs[i] == (Some(i), Members(s)[i].1)
  {
    forall i | 0 <= i < |FieldKeys|
      ensures ResolveKeys(Members(s))[i].0 == Some(i)
    {
      FieldIndexOfKey(i);
    }
  }

  /** Slots in which slot i holds field i's member as json.Marshal writes it. */
  predicate MarshalledSlots(ms: seq<Slot>, s: Service)
    requires forall k :: k in s.metadata ==> s.metadata[k].Plain?
  {
    |ms| == |FieldKeys| && forall i :: 0 <= i < |FieldKeys| ==> ms[i] == (Some(i), Members(s)[i].1)
  }

  lemma MarshalledDecode(ms: seq<Slot>, s: Service)
    requires forall k :: k in s.metadata ==> s.metadata[k].Plain?
    requires MarshalledSlots(ms, s)
    ensures DecodeMembers(ms).Some?
  {
    assert forall j :: 0 <= j < |ms| ==> MemberFits(ms[j]);
    DecodeFits(ms);
  }

  lemma MarshalledStrings(ms: seq<Slot>, s: Service, i: nat)
    requires forall k :: k in s.metadata ==> s.metadata[k].Plain?
    requires MarshalledSlots(ms, s) && i < 6 && DecodeMembers(ms).Some?
    ensures StringOf(DecodeMembers(ms).value, i) == StringOf(s, i)
  {
    assert LastStr(ms, i, i);
    DecodeStringLast(ms, i, i);
  }

  lemma MarshalledMetadata(ms: seq<Slot>, s: Service)
    requires forall k :: k in s.metadata ==> s.metadata[k].Plain?
    requires MarshalledSlots(ms, s) && DecodeMembers(ms).Some?
    ensures DecodeMembers(ms).value.metadata == s.metadata
  {
    var d := DecodeMembers(ms).value;
    forall k
      ensures (k in d.metadata <==> k in s.metadata) && (k in s.metadata ==> d.metadata[k] == s.metadata[k])
    {
      DecodeMetadata(ms, k);
      if k in s.metadata {
        assert MapWriter(ms, 6, k, 6);
      }
      if k in d.metadata {
        var j :| MapWriter(ms, 6, k, j);
        assert j == 6;
      }
    }
  }

  lemma MarshalledTags(ms: seq<Slot>, s: Service)
    requires forall k :: k in s.metadata ==> s.metadata[k].Plain?
    requires MarshalledSlots(ms, s) && DecodeMembers(ms).Some?
    ensures DecodeMembers(ms).value.tags == s.tags
  {
    var d := DecodeMembers(ms).value;
    forall k
      ensures (k in d.tags <==> k in s.tags) && (k in s.tags ==> d.tags[k] == s.tags[k])
    {
      DecodeTags(ms, k);
      if k in s.tags {
        assert MapWriter(ms, 7, k, 7);
      }
      if k in d.tags {
        var j :| MapWriter(ms, 7, k, j);
        assert j == 7;
      }
    }
  }

  /** What the registry stores, discovery reads back unchanged. */
  lemma UnmarshalMarshal(s: Service)
    requires Marshal(s).Success?
    ensures Unmarshal(Marshal(s).value) == Some(s)
  {
    var ms := ResolveKeys(Members(s));
    ResolveMembers(s);
    MarshalledDecode(ms, s);
    var d := DecodeMembers(ms).value;
    MarshalledMetadata(ms, s);
    MarshalledTags(ms, s);
    forall i | 0 <= i < 6
      ensures StringOf(d, i) == StringOf(s, i)
    {
      MarshalledStrings(ms, s, i);
    }
    assert StringOf(d, 0) == StringOf(s, 0) && StringOf(d, 1) == StringOf(s, 1) && StringOf(d, 2) == StringOf(s, 2);
    assert StringOf(d, 3) == StringOf(s, 3) && StringOf(d, 4) == StringOf(s, 4) && StringOf(d, 5) == StringOf(s, 5);
  }

  /** A stored JSON null is no error: it decodes to the zero Service. */
  lemma NullBlobExample()
    ensures Unmarshal(NullBlob) == Some(ZeroService)
    ensures Unmarshal(Malformed([])) == None
  {
  }

  /** The key "Name" selects the name field, as "name" does. */
  lemma CapitalKeyExample()
    ensures FieldIndex("Name") == Some(1)
  {
    assert ToLower("Name") == FieldKeys[1] by {
      assert ToLower("Name")[0] == 'n';
    }
    FieldIndexIgnoresCase("Name", 1);
  }

  /** `{"name":"a","name":null}` keeps "a": a later null leaves a string
      field alone. */
  lemma LaterNullExample()
    ensures DecodeMembers([(Some(1), Scalar(Str("a"))), (Some(1), Scalar(Null))]) == Some(ZeroService.(name := "a"))
  {
    var ms := [(Some(1), Scalar(Str("a"))), (Some(1), Scalar(Null))];
    assert ms[..1] == [(Some(1), Scalar(Str("a")))];
    assert DecodeMembers(ms[..1]) == Some(ZeroService.(name := "a"));
  }

  /** `{"tags":{"a":"1"},"tags":{"b":"2"}}` gives both tags: a second
      object merges into the map the first one made. */
  lemma TagsMergeExample()
    ensures DecodeMembers([(Some(7), Obj(map["a" := Str("1")])), (Some(7), Obj(map["b" := Str("2")]))])
      == Some(ZeroService.(tags := map["a" := "1", "b" := "2"]))
  {
    var ms := [(Some(7), Obj(map["a" := Str("1")])), (Some(7), Obj(map["b" := Str("2")]))];
    assert ms[..1] == [(Some(7), Obj(map["a" := Str("1")]))];
    assert TagValues(map["a" := Str("1")]) && TagValues(map["b" := Str("2")]);
    assert TagEntries(map["a" := Str("1")]) == map["a" := "1"];
    assert TagEntries(map["b" := Str("2")]) == map["b" := "2"];
    assert ZeroService.tags + map["a" := "1"] == map["a" := "1"];
    assert DecodeMembers(ms[..1]) == Some(ZeroService.(tags := map["a" := "1"]));
    assert map["a" := "1"] + map["b" := "2"] == map["a" := "1", "b" := "2"];
  }

  /** RoundRobinHandler. Despite the name it keeps no position between
      calls: each call seeds a fresh generator and picks uniformly. `draw`
      is that generator's output, reduced to an index as Intn(len) does;
      an empty list is outside its contract (Intn(0) panics). */
  function RoundRobinHandler(services: seq<Service>, draw: nat): (s: Service)
    requires |services| > 0
    ensures s in services
    ensures |services| == 1 ==> s == services[0]
  {
    services[draw % |services|]
  }

  /** Every instance can be the one picked. */
  lemma RoundRobinReachesEvery(services: seq<Service>, i: nat)
    requires i < |services|
    ensures RoundRobinHandler(services, i) == services[i]
  {
  }

  /** hestia.StrategyHandler: a caller-supplied selection function, or nil.
      The function returns a *Service, so None stands for a nil pointer. */
  datatype StrategyHandler = NilHandler | Handler(choose: seq<Service> -> Option<Service>)
}
