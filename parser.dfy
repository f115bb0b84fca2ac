/** `parse_json_responses` (test.py:137-181): the reply of the vision service is cleaned
    of markdown fences, split into blocks, and the blocks are paired with the image
    paths by position. Each block that decodes to a JSON object becomes a normalised
    record filed under the basename of its paired path. */
module ResponseParser {
  import opened Wrappers
  import opened Seqs
  import opened Dicts
  import opened TextOps
  import opened Json

  /** The separator between JSON blocks in one reply. */
  const BlockSeparator: string := "\njson\n"

  /** What `merged_data` holds for one image. `image_id` is always the basename of the
      path; the other fields are whatever the reply gave, or their defaults. */
  datatype Record = Record(
    imageId: string,
    timestamp: Json,
    siteName: Json,
    classReasoning: Json,
    locationDetails: Json,
    violations: seq<Json>)

  /** The reply's text with fences removed and outer whitespace trimmed, split into
      blocks (test.py:142-145). */
  function Blocks(text: string): (blocks: seq<string>)
    ensures |blocks| >= 1
    ensures Join(blocks, BlockSeparator) == Strip(StripFences(text))
  {
    SplitJoin(Strip(StripFences(text)), BlockSeparator);
    Split(Strip(StripFences(text)), BlockSeparator)
  }

  /** The fields kept for one image decoded from a JSON object `m` (test.py:156-170). */
  function Normalize(path: string, m: map<string, Json>): Record {
    Record(
      Basename(path),
      GetOr(m, "timestamp", JStr("unknown")),
      GetOr(m, "site_name", JStr("unknown")),
      GetOr(m, "class_reasoning", JStr("")),
      GetOr(m, "Location details", JStr("unavailable")),
      if "violations" in m && m["violations"].JArr? then m["violations"].items else [])
  }

  /** `zip(paths, blocks)`: pairs by position, as many as the shorter list. */
  function Zip(paths: seq<string>, blocks: seq<string>): (pairs: seq<(string, string)>)
    ensures |pairs| == if |paths| <= |blocks| then |paths| else |blocks|
    ensures forall k :: 0 <= k < |pairs| ==> pairs[k] == (paths[k], blocks[k])
  {
    var n := if |paths| <= |blocks| then |paths| else |blocks|;
    seq(n, k requires 0 <= k < n => (paths[k], blocks[k]))
  }

  /** A decoded block that is neither an object nor a decoding error: calling `.get` on
      it raises, and the outer handler returns `{}`. */
  predicate IsNonObject(d: Decoded) {
    d.Value? && !d.v.JObj?
  }

  predicate HasNonObject(pairs: seq<(string, string)>, decode: string -> Decoded) {
    exists k :: 0 <= k < |pairs| && IsNonObject(decode(pairs[k].1))
  }

  /** The entry one pair contributes: the normalised record under the path's basename
      when its block decodes to an object, nothing otherwise. */
  function Entry(p: (string, string), decode: string -> Decoded): (es: seq<(string, Record)>)
    ensures |es| <= 1
    ensures forall e :: e in es ==> e.1.imageId == e.0
  {
    match decode(p.1)
    case Value(JObj(m)) => [(Basename(p.0), Normalize(p.0, m))]
    case _ => []
  }

  /** The entries of the pairs whose block decodes to an object, in order; blocks that
      fail to decode contribute nothing. */
  function Accepted(pairs: seq<(string, string)>, decode: string -> Decoded): (es: seq<(string, Record)>)
    ensures |es| <= |pairs|
    ensures forall e :: e in es ==> e.1.imageId == e.0
  {
    if pairs == [] then []
    else Accepted(pairs[..|pairs| - 1], decode) + Entry(pairs[|pairs| - 1], decode)
  }

  /** The dictionary `parse_json_responses` returns, defined without its loop: `{}` when
      some paired block decodes to a non-object, otherwise the accepted entries stored in
      order, so that a later image with the same basename replaces an earlier one. */
  function ParseSpec(blocks: seq<string>, paths: seq<string>, decode: string -> Decoded): Dict<string, Record> {
    var pairs := Zip(paths, blocks);
    if HasNonObject(pairs, decode) then Empty() else FromPairs(Accepted(pairs, decode))
  }

  /** `parse_json_responses`: cleans and splits the reply, then pairs the blocks with
      the paths. */
  method ParseJsonResponses(text: string, paths: seq<string>, decode: string -> Decoded)
    returns (results: Dict<string, Record>)
    ensures results == ParseSpec(Blocks(text), paths, decode)
  {
    var blocks := Blocks(text);
    results := ParseBlocks(blocks, paths, decode);
  }

  /** The loop of test.py:148-172 over the pairs, storing into `results`. */
  method ParseBlocks(blocks: seq<string>, paths: seq<string>, decode: string -> Decoded)
    returns (results: Dict<string, Record>)
    ensures results == ParseSpec(blocks, paths, decode)
  {
    var pairs := Zip(paths, blocks);
    results := Empty();
    var i := 0;
    while i < |pairs|
      invariant i <= |pairs|
      invariant !HasNonObject(pairs[..i], decode)
      invariant results == FromPairs(Accepted(pairs[..i], decode))
    {
      var d := decode(pairs[i].1);
      if IsNonObject(d) {
        NonObjectAt(pairs, i, decode);
        return Empty();
      }
      AcceptStep(pairs, i, decode);
      if d.Value? {
        results := Put(results, Basename(pairs[i].0), Normalize(pairs[i].0, d.v.fields));
      }
      i := i + 1;
    }
    assert pairs[..i] == pairs;
  }

  lemma EntryObject(p: (string, string), decode: string -> Decoded)
    requires decode(p.1).Value? && decode(p.1).v.JObj?
    ensures Entry(p, decode) == [(Basename(p.0), Normalize(p.0, decode(p.1).v.fields))]
  {
  }

  lemma EntryObjectKey(p: (string, string), decode: string -> Decoded)
    requires decode(p.1).Value? && decode(p.1).v.JObj?
    ensures |Entry(p, decode)| == 1 && Entry(p, decode)[0].0 == Basename(p.0)
  {
  }

  lemma KeysSingleton(e: seq<(string, Record)>, key: string)
    requires |e| == 1
    ensures key in Keys(Dict(e)) <==> e[0].0 == key
  {
    assert Keys(Dict(e)) == [e[0].0];
  }

  lemma EntryError(p: (string, string), decode: string -> Decoded)
    requires decode(p.1).DecodeError?
    ensures Entry(p, decode) == []
  {
  }

  lemma NonObjectAt(pairs: seq<(string, string)>, i: nat, decode: string -> Decoded)
    requires i < |pairs| && IsNonObject(decode(pairs[i].1))
    ensures HasNonObject(pairs, decode)
  {
  }

  /** Extending a prefix of the pairs by one pair that is not a non-object. */
  lemma PrefixStep(pairs: seq<(string, string)>, i: nat, decode: string -> Decoded)
    requires i < |pairs| && !IsNonObject(decode(pairs[i].1))
    requires !HasNonObject(pairs[..i], decode)
    ensures !HasNonObject(pairs[..i + 1], decode)
    ensures Accepted(pairs[..i + 1], decode) == Accepted(pairs[..i], decode) + Entry(pairs[i], decode)
  {
    assert pairs[..i + 1][..i] == pairs[..i];
  }

  /** One pass of the loop: the stored records grow by the pair's record when its block
      decodes to an object, and stay as they were when it does not decode. */
  lemma AcceptStep(pairs: seq<(string, string)>, i: nat, decode: string -> Decoded)
    requires i < |pairs| && !IsNonObject(decode(pairs[i].1))
    requires !HasNonObject(pairs[..i], decode)
    ensures !HasNonObject(pairs[..i + 1], decode)
    ensures FromPairs(Accepted(pairs[..i + 1], decode)) ==
      if decode(pairs[i].1).Value? then
        Put(FromPairs(Accepted(pairs[..i], decode)), Basename(pairs[i].0), Normalize(pairs[i].0, decode(pairs[i].1).v.fields))
      else FromPairs(Accepted(pairs[..i], decode))
  {
    PrefixStep(pairs, i, decode);
    var before := Accepted(pairs[..i], decode);
    if decode(pairs[i].1).Value? {
      EntryObject(pairs[i], decode);
      FromPairsSnoc(before, (Basename(pairs[i].0), Normalize(pairs[i].0, decode(pairs[i].1).v.fields)));
    } else {
      EntryError(pairs[i], decode);
      assert before + [] == before;
    }
  }

  lemma FromPairsSnoc<K(!new), V>(ps: seq<(K, V)>, p: (K, V))
    ensures FromPairs(ps + [p]) == Put(FromPairs(ps), p.0, p.1)
  {
    assert (ps + [p])[..|ps|] == ps;
  }

  /** Every stored record is filed under its own `image_id`, the basename of the path
      it was paired with; the reply's own `image_id` is never used (test.py:156, 172). */
  lemma ParseFilesUnderImageId(blocks: seq<string>, paths: seq<string>, decode: string -> Decoded, key: string)
    requires Get(ParseSpec(blocks, paths, decode), key).Some?
    ensures Get(ParseSpec(blocks, paths, decode), key).value.imageId == key
  {
    var pairs := Zip(paths, blocks);
    LastValueImageId(Accepted(pairs, decode), key);
  }

  lemma {:induction false} LastValueImageId(es: seq<(string, Record)>, key: string)
    requires forall e :: e in es ==> e.1.imageId == e.0
    requires LastValue(es, key).Some?
    ensures LastValue(es, key).value.imageId == key
  {
    if es[|es| - 1].0 != key {
      assert forall e :: e in es[..|es| - 1] ==> e in es;
      LastValueImageId(es[..|es| - 1], key);
    }
  }

  /** Keys of the parse: when no block decodes to a non-object, a basename is a key
      exactly when some position pairs a path with that basename with a block that
      decodes to an object. Surplus blocks and surplus paths are ignored. */
  lemma ParseKeys(blocks: seq<string>, paths: seq<string>, decode: string -> Decoded, key: string)
    requires !HasNonObject(Zip(paths, blocks), decode)
    ensures key in Keys(ParseSpec(blocks, paths, decode)) <==>
      exists k :: 0 <= k < |paths| && k < |blocks| && Basename(paths[k]) == key && decode(blocks[k]).Value?
  {
    var pairs := Zip(paths, blocks);
    AcceptedKeys(pairs, decode, key, |pairs|);
    assert pairs[..|pairs|] == pairs;
    FiledBeforeSome(pairs, decode, key, |pairs|);
    if FiledBefore(pairs, decode, key, |pairs|) {
      var k :| 0 <= k < |pairs| && FiledAt(pairs, decode, key, k);
      assert pairs[k] == (paths[k], blocks[k]);
    }
    if exists k :: 0 <= k < |paths| && k < |blocks| && Basename(paths[k]) == key && decode(blocks[k]).Value? {
      var k :| 0 <= k < |paths| && k < |blocks| && Basename(paths[k]) == key && decode(blocks[k]).Value?;
      assert FiledAt(pairs, decode, key, k);
    }
  }

  /** Whatever the blocks decode to, every key of the parse is the basename of one of
      the paths. */
  lemma ParseKeysFromPaths(blocks: seq<string>, paths: seq<string>, decode: string -> Decoded, key: string)
    requires key in Keys(ParseSpec(blocks, paths, decode))
    ensures exists k :: 0 <= k < |paths| && Basename(paths[k]) == key
  {
    if !HasNonObject(Zip(paths, blocks), decode) {
      ParseKeys(blocks, paths, decode, key);
    }
  }

  /** Position `k` pairs a path with basename `key` with a block that decodes. */
  predicate FiledAt(pairs: seq<(string, string)>, decode: string -> Decoded, key: string, k: int) {
    0 <= k < |pairs| && Basename(pairs[k].0) == key && decode(pairs[k].1).Value?
  }

  /** Some position before `n` files a record under `key`. */
  predicate FiledBefore(pairs: seq<(string, string)>, decode: string -> Decoded, key: string, n: nat) {
    n > 0 && (FiledBefore(pairs, decode, key, n - 1) || FiledAt(pairs, decode, key, n - 1))
  }

  lemma {:induction false} FiledBeforeSome(pairs: seq<(string, string)>, decode: string -> Decoded, key: string, n: nat)
    ensures FiledBefore(pairs, decode, key, n) <==> exists k :: 0 <= k < n && FiledAt(pairs, decode, key, k)
  {
    if n > 0 {
      FiledBeforeSome(pairs, decode, key, n - 1);
      if exists k :: 0 <= k < n && FiledAt(pairs, decode, key, k) {
        var k :| 0 <= k < n && FiledAt(pairs, decode, key, k);
        if k < n - 1 {
          assert exists k :: 0 <= k < n - 1 && FiledAt(pairs, decode, key, k);
        }
      }
    }
  }

  /** The keys filed by the first `n` pairs. */
  lemma {:induction false} AcceptedKeys(pairs: seq<(string, string)>, decode: string -> Decoded, key: string, n: nat)
    requires n <= |pairs| && !HasNonObject(pairs, decode)
    ensures key in Keys(Dict(Accepted(pairs[..n], decode))) <==> FiledBefore(pairs, decode, key, n)
  {
    if n > 0 {
      AcceptedKeys(pairs, decode, key, n - 1);
      AcceptedKeysStep(pairs, decode, key, n);
    }
  }

  lemma AcceptedKeysStep(pairs: seq<(string, string)>, decode: string -> Decoded, key: string, n: nat)
    requires 0 < n <= |pairs| && !HasNonObject(pairs, decode)
    ensures key in Keys(Dict(Accepted(pairs[..n], decode))) <==>
      key in Keys(Dict(Accepted(pairs[..n - 1], decode))) || FiledAt(pairs, decode, key, n - 1)
  {
    assert !IsNonObject(decode(pairs[n - 1].1));
    assert pairs[..n][..n - 1] == pairs[..n - 1];
    KeysAppend(Accepted(pairs[..n - 1], decode), Entry(pairs[n - 1], decode));
    EntryKeys(pairs[n - 1], decode, key);
  }

  /** The one pair's entry has the key exactly when the path has that basename and the
      block decodes. */
  lemma EntryKeys(p: (string, string), decode: string -> Decoded, key: string)
    requires !IsNonObject(decode(p.1))
    ensures key in Keys(Dict(Entry(p, decode))) <==> Basename(p.0) == key && decode(p.1).Value?
  {
    if decode(p.1).Value? {
      EntryObjectKey(p, decode);
      KeysSingleton(Entry(p, decode), key);
    } else {
      EntryError(p, decode);
    }
  }

  lemma KeysAppend<K, V>(a: seq<(K, V)>, b: seq<(K, V)>)
    ensures Keys(Dict(a + b)) == Keys(Dict(a)) + Keys(Dict(b))
  {
  }

  /** The parse stores at most one record per pair, so no more records than the shorter
      of the path list and the block list. */
  lemma ParseBound(blocks: seq<string>, paths: seq<string>, decode: string -> Decoded)
    ensures |Keys(ParseSpec(blocks, paths, decode))| <= |paths|
    ensures |Keys(ParseSpec(blocks, paths, decode))| <= |blocks|
  {
  }

  /** The value stored under a key comes from the last pair that files an object under
      that key. */
  lemma ParseValue(blocks: seq<string>, paths: seq<string>, decode: string -> Decoded, key: string)
    requires !HasNonObject(Zip(paths, blocks), decode)
    ensures Get(ParseSpec(blocks, paths, decode), key) == LastValue(Accepted(Zip(paths, blocks), decode), key)
  {
  }

  /** One block that decodes to something other than an object empties the whole
      result, including what earlier blocks produced (test.py:179-181). */
  lemma ParseNonObjectEmpties(blocks: seq<string>, paths: seq<string>, decode: string -> Decoded, k: nat)
    requires k < |paths| && k < |blocks|
    requires IsNonObject(decode(blocks[k]))
    ensures ParseSpec(blocks, paths, decode) == Empty()
  {
    assert Zip(paths, blocks)[k].1 == blocks[k];
  }

  /** A reply object with none of the expected keys gets every default (test.py:159-170). */
  lemma NormalizeDefaults(path: string, m: map<string, Json>)
    requires "timestamp" !in m && "site_name" !in m && "class_reasoning" !in m
    requires "Location details" !in m && "violations" !in m
    ensures Normalize(path, m) == Record(Basename(path), JStr("unknown"), JStr("unknown"), JStr(""), JStr("unavailable"), [])
  {
  }

  /** A `violations` field that is not a list is replaced by the empty list. */
  lemma NormalizeViolationsList(path: string, m: map<string, Json>)
    requires "violations" in m && !m["violations"].JArr?
    ensures Normalize(path, m).violations == []
  {
  }

  /** The record written back as a JSON object, with the keys `merged_data` has. */
  function AsJson(r: Record): Json {
    JObj(map[
      "image_id" := JStr(r.imageId),
      "timestamp" := r.timestamp,
      "site_name" := r.siteName,
      "class_reasoning" := r.classReasoning,
      "location_details" := r.locationDetails,
      "violations" := JArr(r.violations)])
  }

  /** Normalising is not idempotent: the location is read from "Location details" but
      written to "location_details", so normalising a record again loses it. */
  lemma RenormalizeLosesLocation(path: string, m: map<string, Json>)
    requires "Location details" in m && m["Location details"] != JStr("unavailable")
    ensures Normalize(path, AsJson(Normalize(path, m)).fields) != Normalize(path, m)
    ensures Normalize(path, AsJson(Normalize(path, m)).fields).locationDetails == JStr("unavailable")
  {
    AsJsonKeys(Normalize(path, m));
  }

  /** The written-back object has no "Location details" key. */
  lemma AsJsonKeys(r: Record)
    ensures "Location details" !in AsJson(r).fields
  {
    var k := "Location details";
    assert |k| == 16 && k[0] == 'L';
    assert k != "location_details" by {
      assert "location_details"[0] == 'l';
    }
  }
}
