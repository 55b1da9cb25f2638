/**
 * Preference documents as JSON values, and the two ways the preference endpoints update
 * them: the one-level merge of PUT /settings/preferences on the server, and the dotted-path
 * `$set` that PUT /api/settings/preferences builds with `flattenForUpdate`.
 */
module Preferences {
  import opened Outcomes

  /** A JSON value. Numbers are integers here; `JDate` is a Date object, which values built in
      code can hold and parsed request bodies cannot. An object's member sequence stands for the
      order `Object.entries` returns: integer-like keys first, ascending, then the other keys in
      insertion order. */
  datatype Json =
    | JNull
    | JBool(b: bool)
    | JNum(n: int)
    | JStr(s: string)
    | JArr(items: seq<Json>)
    | JDate(ms: int)
    | JObj(members: seq<Member>)

  datatype Member = Member(key: string, value: Json)

  /** The keys of an object. */
  function Keys(ms: seq<Member>): set<string> {
    if |ms| == 0 then {} else {ms[0].key} + Keys(ms[1..])
  }

  /** The keys of a JavaScript object are distinct: no key comes again after its member. */
  predicate DistinctKeys(ms: seq<Member>) {
    |ms| == 0 || (ms[0].key !in Keys(ms[1..]) && DistinctKeys(ms[1..]))
  }

  /** `obj[key]`: the value of the first member with that key. */
  function Lookup(ms: seq<Member>, k: string): (r: Option<Json>)
    ensures r.Some? <==> k in Keys(ms)
  {
    if |ms| == 0 then None
    else if ms[0].key == k then Some(ms[0].value)
    else Lookup(ms[1..], k)
  }

  /** `obj[key] = value`: the member with that key gets the value in its place; a new key is
      appended at the end. */
  function Put(ms: seq<Member>, k: string, v: Json): (r: seq<Member>)
    ensures Keys(r) == Keys(ms) + {k}
    ensures forall j :: Lookup(r, j) == if j == k then Some(v) else Lookup(ms, j)
  {
    if |ms| == 0 then [Member(k, v)]
    else if ms[0].key == k then
      var r := [Member(k, v)] + ms[1..];
      assert r[1..] == ms[1..];
      r
    else
      var rest := Put(ms[1..], k, v);
      var r := [ms[0]] + rest;
      assert r[1..] == rest;
      r
  }

  /** `{ ...a, ...b }`: the members of a, then each member of b assigned in turn. */
  function Overlay(a: seq<Member>, b: seq<Member>): (r: seq<Member>)
    ensures Keys(r) == Keys(a) + Keys(b)
    decreases |b|
  {
    if |b| == 0 then a
    else Overlay(Put(a, b[0].key, b[0].value), b[1..])
  }

  /** The spread is shallow: a key of b reads b's own value, even when that value is itself an
      object, and every other key reads a's. */
  lemma {:induction false} OverlayLookup(a: seq<Member>, b: seq<Member>, j: string)
    requires DistinctKeys(b)
    ensures Lookup(Overlay(a, b), j) == if j in Keys(b) then Lookup(b, j) else Lookup(a, j)
    decreases |b|
  {
    if |b| > 0 {
      OverlayLookup(Put(a, b[0].key, b[0].value), b[1..], j);
    }
  }

  // PUT /settings/preferences (server)

  /** `typeof v === 'object' && !Array.isArray(v)`: objects, and also null and Dates. */
  predicate IsObjectType(v: Json) {
    v.JObj? || v.JNull? || v.JDate?
  }

  /** The members that spreading a value contributes: an object's own members, and an array's
      elements or a string's characters under their indexes; null, a Date, a number, a
      boolean and a missing value contribute none. */
  function Spread(v: Option<Json>): (ms: seq<Member>)
    ensures v.Some? && v.value.JObj? ==> ms == v.value.members
    ensures v.Some? && v.value.JArr? ==> ms == IndexMembers(v.value.items, 0)
    ensures v.Some? && v.value.JStr? ==> ms == IndexMembers(Chars(v.value.s), 0)
    ensures v.None? || v.value.JNull? || v.value.JBool? || v.value.JNum? || v.value.JDate? ==> ms == []
  {
    if v.None? then []
    else match v.value
      case JObj(members) => members
      case JArr(items) => IndexMembers(items, 0)
      case JStr(str) => IndexMembers(Chars(str), 0)
      case _ => []
  }

  /** The characters of a string, each as a one-character string. */
  function Chars(str: string): (cs: seq<Json>)
    ensures |cs| == |str|
    ensures forall i :: 0 <= i < |str| ==> cs[i] == JStr([str[i]])
  {
    seq(|str|, i requires 0 <= i < |str| => JStr([str[i]]))
  }

  /** The decimal digit d. */
  function Digit(d: nat): (c: char)
    requires d < 10
    ensures c as int == '0' as int + d
  {
    ('0' as int + d) as char
  }

  /** `String(i)`: the decimal numeral of an index, the key an element is spread under. */
  function IndexKey(i: nat): (s: string)
    ensures |s| >= 1
    ensures |s| == 1 <==> i < 10
  {
    if i < 10 then [Digit(i)] else IndexKey(i / 10) + [Digit(i % 10)]
  }

  /** Different indexes have different numerals. */
  lemma {:induction false} IndexKeyInjective(i: nat, j: nat)
    requires IndexKey(i) == IndexKey(j)
    ensures i == j
    decreases i
  {
    var s := IndexKey(i);
    if i < 10 {
      assert j < 10;
      assert s[0] == Digit(i) && s[0] == Digit(j);
    } else {
      assert j >= 10;
      assert s[..|s| - 1] == IndexKey(i / 10) && s[..|s| - 1] == IndexKey(j / 10);
      assert s[|s| - 1] == Digit(i % 10) && s[|s| - 1] == Digit(j % 10);
      IndexKeyInjective(i / 10, j / 10);
    }
  }

  /** The values of vs as members keyed by their indexes, counted from `from`. */
  function IndexMembers(vs: seq<Json>, from: nat): (ms: seq<Member>)
    ensures |ms| == |vs|
    ensures forall i :: 0 <= i < |vs| ==> ms[i] == Member(IndexKey(from + i), vs[i])
    decreases |vs|
  {
    if |vs| == 0 then [] else [Member(IndexKey(from), vs[0])] + IndexMembers(vs[1..], from + 1)
  }

  /** The index members repeat no key, and no numeral of an index before `from` is among
      their keys. */
  lemma {:induction false} IndexMembersKeys(vs: seq<Json>, from: nat)
    ensures forall i: nat :: i < from ==> IndexKey(i) !in Keys(IndexMembers(vs, from))
    ensures DistinctKeys(IndexMembers(vs, from))
    decreases |vs|
  {
    if |vs| > 0 {
      var ms := IndexMembers(vs, from);
      IndexMembersKeys(vs[1..], from + 1);
      assert ms[1..] == IndexMembers(vs[1..], from + 1);
      assert Keys(ms) == {IndexKey(from)} + Keys(ms[1..]);
      forall i: nat | i < from
        ensures IndexKey(i) != IndexKey(from)
      {
        if IndexKey(i) == IndexKey(from) {
          IndexKeyInjective(i, from);
        }
      }
    }
  }

  /** Spreading an array or a string gives, under the numeral of each index, the element or
      the character at that index. */
  lemma SpreadIndexes(v: Json, i: nat)
    requires v.JArr? || v.JStr?
    ensures var ms := Spread(Some(v));
      var vs := if v.JArr? then v.items else Chars(v.s);
      DistinctKeys(ms) && (i < |vs| ==> Lookup(ms, IndexKey(i)) == Some(vs[i]))
  {
    var vs := if v.JArr? then v.items else Chars(v.s);
    var ms := IndexMembers(vs, 0);
    IndexMembersKeys(vs, 0);
    if i < |vs| {
      FirstKeyLookup(ms, i);
    }
  }

  /** In an object with distinct keys, looking up the key of a member finds that member. */
  lemma {:induction false} FirstKeyLookup(ms: seq<Member>, i: nat)
    requires DistinctKeys(ms) && i < |ms|
    ensures Lookup(ms, ms[i].key) == Some(ms[i].value)
    decreases i
  {
    if i > 0 {
      assert ms[i] == ms[1..][i - 1];
      FirstKeyLookup(ms[1..], i - 1);
      KeyOfMember(ms[1..], i - 1);
    }
  }

  /** The key of a member is one of the object's keys. */
  lemma {:induction false} KeyOfMember(ms: seq<Member>, i: nat)
    requires i < |ms|
    ensures ms[i].key in Keys(ms)
    decreases i
  {
    if i > 0 {
      assert ms[i] == ms[1..][i - 1];
      KeyOfMember(ms[1..], i - 1);
    }
  }

  function Get(doc: map<string, Json>, k: string): Option<Json> {
    if k in doc then Some(doc[k]) else None
  }

  /** One key of the merge: an object-typed update is spread over the stored value, any
      other update replaces it. */
  function MergeKey(doc: map<string, Json>, k: string, u: Json): (r: map<string, Json>)
    ensures r.Keys == doc.Keys + {k}
    ensures forall j :: j in doc && j != k ==> r[j] == doc[j]
    ensures !IsObjectType(u) ==> r[k] == u
    ensures IsObjectType(u) ==> r[k] == JObj(Overlay(Spread(Get(doc, k)), Spread(Some(u))))
  {
    if IsObjectType(u) then doc[k := JObj(Overlay(Spread(Get(doc, k)), Spread(Some(u))))]
    else doc[k := u]
  }

  /** `Object.keys(updates).forEach(...)`: each key of the update merged in turn. A parsed JSON
      body never repeats a key; MergeAllEffect states the outcome for such a body. */
  function MergeAll(doc: map<string, Json>, updates: seq<Member>): map<string, Json>
    decreases |updates|
  {
    if |updates| == 0 then doc
    else MergeAll(MergeKey(doc, updates[0].key, updates[0].value), updates[1..])
  }

  /** The merge touches only the keys of the update: every other key keeps its value, and
      each key of the update ends as merging its own value into the stored document made it. */
  lemma {:induction false} MergeAllEffect(doc: map<string, Json>, updates: seq<Member>)
    requires DistinctKeys(updates)
    ensures var r := MergeAll(doc, updates);
      && r.Keys == doc.Keys + Keys(updates)
      && (forall k :: k in doc && k !in Keys(updates) ==> r[k] == doc[k])
      && (forall k :: k in Keys(updates) ==> r[k] == MergeKey(doc, k, Lookup(updates, k).value)[k])
    decreases |updates|
  {
    if |updates| > 0 {
      var m := updates[0];
      var next := MergeKey(doc, m.key, m.value);
      MergeAllEffect(next, updates[1..]);
      forall k | k in Keys(updates[1..])
        ensures Get(next, k) == Get(doc, k)
      {
      }
    }
  }

  /** Merging a group object keeps the stored fields the update does not name, and gives
      every field it names the update's value, one level deep: a nested object replaces the
      stored one whole. A non-object value, or an array, replaces the group. */
  lemma MergeIsOneLevel(doc: map<string, Json>, k: string, u: Json, field: string)
    requires u.JObj? && DistinctKeys(u.members)
    ensures var r := MergeKey(doc, k, u)[k];
      r.JObj? && Lookup(r.members, field) ==
        if field in Keys(u.members) then Lookup(u.members, field)
        else Lookup(Spread(Get(doc, k)), field)
  {
    OverlayLookup(Spread(Get(doc, k)), u.members, field);
  }

  /** Merging null or a Date into a key keeps the stored group's members as they were. */
  lemma MergeNullKeeps(doc: map<string, Json>, k: string, u: Json)
    requires u.JNull? || u.JDate?
    ensures MergeKey(doc, k, u)[k] == JObj(Spread(Get(doc, k)))
  {
  }

  // PUT /api/settings/preferences (serverless)

  /** `prefix ? prefix + '.' + key : key`. */
  function JoinPath(prefix: string, key: string): (path: string)
    ensures prefix == "" ==> path == key
    ensures prefix != "" ==> path == prefix + "." + key
  {
    if prefix == "" then key else prefix + "." + key
  }

  /** The values `flattenForUpdate` recurses into: truthy objects that are neither arrays nor
      Dates. Null, arrays, Dates and primitives are leaves. */
  predicate IsPlainObject(v: Json) {
    v.JObj?
  }

  /** `flattenForUpdate(obj, prefix, result)`: every leaf is written into `result` under the
      key path joined with dots, member by member in order. */
  function Flatten(ms: seq<Member>, prefix: string, acc: map<string, Json>): map<string, Json>
    decreases ms
  {
    if |ms| == 0 then acc
    else
      var path := JoinPath(prefix, ms[0].key);
      var next := if IsPlainObject(ms[0].value) then Flatten(ms[0].value.members, path, acc)
                  else acc[path := ms[0].value];
      Flatten(ms[1..], prefix, next)
  }

  /** The dotted paths of the leaves under an object, as an independent, order-free
      description. */
  function LeafPaths(ms: seq<Member>, prefix: string): set<string>
    decreases ms
  {
    if |ms| == 0 then {}
    else
      var path := JoinPath(prefix, ms[0].key);
      (if IsPlainObject(ms[0].value) then LeafPaths(ms[0].value.members, path) else {path})
      + LeafPaths(ms[1..], prefix)
  }

  /** Whether v is a leaf of the object at dotted path `path`. */
  predicate HasLeaf(ms: seq<Member>, prefix: string, path: string, v: Json)
    decreases ms
  {
    |ms| > 0 &&
    ((if IsPlainObject(ms[0].value) then HasLeaf(ms[0].value.members, JoinPath(prefix, ms[0].key), path, v)
      else path == JoinPath(prefix, ms[0].key) && v == ms[0].value)
     || HasLeaf(ms[1..], prefix, path, v))
  }

  /** A leaf is never a plain object. */
  lemma {:induction false} LeafIsNotObject(ms: seq<Member>, prefix: string, path: string, v: Json)
    requires HasLeaf(ms, prefix, path, v)
    ensures !IsPlainObject(v)
    decreases ms
  {
    if IsPlainObject(ms[0].value) && HasLeaf(ms[0].value.members, JoinPath(prefix, ms[0].key), path, v) {
      LeafIsNotObject(ms[0].value.members, JoinPath(prefix, ms[0].key), path, v);
    } else if !IsPlainObject(ms[0].value) && path == JoinPath(prefix, ms[0].key) && v == ms[0].value {
    } else {
      LeafIsNotObject(ms[1..], prefix, path, v);
    }
  }

  /** Flattening adds exactly the leaf paths to what `result` held; every key it writes
      holds a leaf found at that path, so no plain object is ever written; and a key it does
      not write keeps its value. */
  lemma {:induction false} FlattenMeaning(ms: seq<Member>, prefix: string, acc: map<string, Json>)
    ensures var r := Flatten(ms, prefix, acc);
      && r.Keys == acc.Keys + LeafPaths(ms, prefix)
      && (forall k :: k in r ==> (k in acc && r[k] == acc[k]) || HasLeaf(ms, prefix, k, r[k]))
      && (forall k :: k in acc && k !in LeafPaths(ms, prefix) ==> r[k] == acc[k])
    decreases ms
  {
    if |ms| > 0 {
      var path := JoinPath(prefix, ms[0].key);
      var next := if IsPlainObject(ms[0].value) then Flatten(ms[0].value.members, path, acc)
                  else acc[path := ms[0].value];
      if IsPlainObject(ms[0].value) {
        FlattenMeaning(ms[0].value.members, path, acc);
      }
      FlattenMeaning(ms[1..], prefix, next);
    }
  }

  /** Every value that flattening an object from empty writes is a leaf: null, an array, a
      Date or a primitive. */
  lemma FlattenWritesLeaves(ms: seq<Member>, k: string)
    requires k in Flatten(ms, "", map[])
    ensures !IsPlainObject(Flatten(ms, "", map[])[k])
    ensures HasLeaf(ms, "", k, Flatten(ms, "", map[])[k])
  {
    FlattenMeaning(ms, "", map[]);
    LeafIsNotObject(ms, "", k, Flatten(ms, "", map[])[k]);
  }

  /** A nested empty object contributes no entry. */
  lemma EmptyObjectAddsNothing(ms: seq<Member>, prefix: string, key: string, acc: map<string, Json>)
    ensures Flatten([Member(key, JObj([]))] + ms, prefix, acc) == Flatten(ms, prefix, acc)
  {
    assert ([Member(key, JObj([]))] + ms)[1..] == ms;
  }

  /** A leaf member at the top level is written under its own key. */
  lemma TopLevelLeaf(key: string, v: Json, ms: seq<Member>, acc: map<string, Json>)
    requires !IsPlainObject(v)
    ensures Flatten([Member(key, v)] + ms, "", acc) == Flatten(ms, "", acc[key := v])
  {
    assert ([Member(key, v)] + ms)[1..] == ms;
  }

  /** `flattenForUpdate`: the loop over the entries, recursing into plain objects with the
      shared result. */
  method FlattenForUpdate(ms: seq<Member>, prefix: string, result: map<string, Json>) returns (r: map<string, Json>)
    ensures r == Flatten(ms, prefix, result)
    decreases ms
  {
    r := result;
    var i := 0;
    while i < |ms|
      invariant 0 <= i <= |ms|
      invariant Flatten(ms[i..], prefix, r) == Flatten(ms, prefix, result)
    {
      var m := ms[i];
      assert ms[i..][0] == m && ms[i..][1..] == ms[i + 1..];
      var path := JoinPath(prefix, m.key);
      if IsPlainObject(m.value) {
        r := FlattenForUpdate(m.value.members, path, r);
      } else {
        r := r[path := m.value];
      }
      i := i + 1;
    }
    assert ms[i..] == [];
  }

  /** Whether stored path q lies at or below path p. */
  predicate Within(q: string, p: string) {
    q == p || (|q| > |p| && q[..|p| + 1] == p + ".")
  }

  /** Whether no path of `sets` covers q. */
  predicate Uncovered(q: string, sets: map<string, Json>) {
    forall p :: p in sets ==> !Within(q, p)
  }

  /** `{ $set: sets }` on a document seen as its dotted leaf paths: a path set replaces
      whatever was stored at or below it, and every path no set path covers stays. */
  function SetPaths(doc: map<string, Json>, sets: map<string, Json>): (r: map<string, Json>)
    ensures forall p :: p in sets ==> p in r && r[p] == sets[p]
    ensures forall q :: q in doc && Uncovered(q, sets) ==> q in r && r[q] == doc[q]
    ensures forall q :: q in r ==> q in sets || (q in doc && Uncovered(q, sets))
  {
    (map q | q in doc && Uncovered(q, sets) :: doc[q]) + sets
  }

  /** Applying the same `$set` twice changes nothing more. */
  lemma SetPathsIdempotent(doc: map<string, Json>, sets: map<string, Json>)
    ensures SetPaths(SetPaths(doc, sets), sets) == SetPaths(doc, sets)
  {
    var once := SetPaths(doc, sets);
    var twice := SetPaths(once, sets);
    forall q | q in once
      ensures q in twice && twice[q] == once[q]
    {
      if q !in sets {
        assert Uncovered(q, sets);
      }
    }
    forall q | q in twice
      ensures q in once
    {
    }
  }
}
