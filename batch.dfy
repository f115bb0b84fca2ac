/** `analyze_images` (test.py:184-228): the image paths are cut into consecutive batches;
    the images of a batch that can be encoded are sent to the vision service in one
    call, the reply is parsed against the batch's paths, and the per-batch dictionaries
    are merged with `dict.update`. Any exception ends the whole run with
    `{"error": message}`, which is `Err(message)` here. */
module BatchAnalysis {
  import opened Wrappers
  import opened Seqs
  import opened Dicts
  import opened TextOps
  import opened Json
  import opened ResponseParser

  /** What the chat-completion call yields: the message content, a message without
      content (`None`), or an exception with its text. */
  datatype Reply = Content(text: string) | NoContent | Raised(message: string)

  /** The outside world of one run: `process_image` (a base64 string or `None`), the
      vision service (given the batch number, the prompt and the encoded images; the
      number lets two calls with the same images get different replies) and
      `json.loads`. */
  datatype Services = Services(
    encode: string -> Option<string>,
    vision: (nat, string, seq<string>) -> Reply,
    decode: string -> Decoded)

  /** `str(e)` of the `ValueError` that `range()` raises for a zero step. */
  const ZeroStepMessage: string := "range() arg 3 must not be zero"

  /** `str(e)` of the `TypeError` that `re.sub` raises on a reply without content. */
  const NoContentMessage: string := "expected string or bytes-like object"

  /** `process_image(path)` is truthy: it produced a non-empty base64 string. */
  predicate Processable(encode: string -> Option<string>, path: string) {
    encode(path).Some? && encode(path).value != []
  }

  /** The paths of a batch whose images are sent (test.py:192-195), in batch order. */
  function SentPaths(batch: seq<string>, encode: string -> Option<string>): (sent: seq<string>)
    ensures |sent| <= |batch|
    ensures forall p :: p in sent <==> p in batch && Processable(encode, p)
    ensures forall j :: 0 <= j < |sent| ==> Processable(encode, sent[j])
    ensures IsSubseq(sent, batch)
    ensures forall p :: Count(sent, p) == if Processable(encode, p) then Count(batch, p) else 0
  {
    KeepIsSubseq(batch, p => Processable(encode, p));
    KeepCount(batch, p => Processable(encode, p));
    Keep(batch, p => Processable(encode, p))
  }

  /** The encoded images of the sent paths, one per path, in order. */
  function Images(sent: seq<string>, encode: string -> Option<string>): (images: seq<string>)
    ensures |images| == |sent|
    ensures forall j :: 0 <= j < |sent| && encode(sent[j]).Some? ==> encode(sent[j]) == Some(images[j])
  {
    seq(|sent|, j requires 0 <= j < |sent| => match encode(sent[j]) case Some(b) => b case None => [])
  }

  /** The batches in order, concatenated. */
  function Flatten(bs: seq<seq<string>>): seq<string> {
    if bs == [] then [] else bs[0] + Flatten(bs[1..])
  }

  /** `image_paths[i:i + batch_size]` for `i` in `range(0, len(image_paths), batch_size)`:
      consecutive non-empty batches that together are the path list, each of `size`
      paths except possibly the last, which may be shorter. */
  function Batches(paths: seq<string>, size: nat): (bs: seq<seq<string>>)
    requires size > 0
    ensures Flatten(bs) == paths
    ensures forall j :: 0 <= j < |bs| ==> 0 < |bs[j]| <= size
    ensures forall j :: 0 <= j < |bs| - 1 ==> |bs[j]| == size
    decreases |paths|
  {
    if |paths| <= size then
      if paths == [] then [] else [paths]
    else
      var rest := Batches(paths[size..], size);
      assert paths == paths[..size] + paths[size..];
      [paths[..size]] + rest
  }

  /** One call for the sent paths `sent`, whose reply is parsed against `pairWith`
      and merged into `acc`. No call is made when nothing is sent (test.py:197-199). */
  function Outcome(acc: Dict<string, Record>, sent: seq<string>, pairWith: seq<string>, n: nat, prompt: string, env: Services): Result<Dict<string, Record>>
  {
    if sent == [] then Ok(acc)
    else
      match env.vision(n, prompt, Images(sent, env.encode))
      case Raised(m) => Err(m)
      case NoContent => Err(NoContentMessage)
      case Content(t) =>
        ParseUnique(Blocks(t), pairWith, env.decode);
        Ok(Update(acc, ParseSpec(Blocks(t), pairWith, env.decode)))
  }

  /** Batch number `n` as the code handles it: the reply is parsed against the whole
      batch (test.py:219), not against the paths whose images were sent. */
  function Step(acc: Result<Dict<string, Record>>, batch: seq<string>, n: nat, prompt: string, env: Services): Result<Dict<string, Record>> {
    if acc.Err? then acc
    else Outcome(acc.value, SentPaths(batch, env.encode), batch, n, prompt, env)
  }

  /** The merged result of the batches `bs`, processed in order from an empty
      dictionary; after the first error, later batches are not processed. */
  function Merge(bs: seq<seq<string>>, prompt: string, env: Services): Result<Dict<string, Record>> {
    if bs == [] then Ok(Empty())
    else Step(Merge(bs[..|bs| - 1], prompt, env), bs[|bs| - 1], |bs| - 1, prompt, env)
  }

  /** What `analyze_images` returns. A zero batch size makes `range()` raise; a negative
      one gives an empty range and so an empty result. */
  function Analyze(paths: seq<string>, prompt: string, size: int, env: Services): Result<Dict<string, Record>> {
    if size == 0 then Err(ZeroStepMessage)
    else if size < 0 then Ok(Empty())
    else Merge(Batches(paths, size), prompt, env)
  }

  /** `analyze_images`. */
  method AnalyzeImages(paths: seq<string>, prompt: string, batchSize: int, env: Services)
    returns (r: Result<Dict<string, Record>>)
    ensures r == Analyze(paths, prompt, batchSize, env)
  {
    if batchSize == 0 {
      return Err(ZeroStepMessage);
    }
    if batchSize < 0 {
      return Ok(Empty());
    }
    ghost var bs := Batches(paths, batchSize);
    var results: Dict<string, Record> := Empty();
    var i, k := 0, 0;
    assert paths[0..] == paths;
    while i < |paths|
      invariant i <= |paths| && k <= |bs|
      invariant bs[k..] == Batches(paths[i..], batchSize)
      invariant Merge(bs[..k], prompt, env) == Ok(results)
      decreases |paths| - i
    {
      var hi := if i + batchSize <= |paths| then i + batchSize else |paths|;
      var batch := paths[i..hi];
      BatchesFront(paths, i, hi, batchSize, bs, k);
      MergeSnoc(bs, k, prompt, env);
      var outcome := CallBatch(results, batch, k, prompt, env);
      if outcome.Err? {
        MergeErrExtends(bs, k + 1, prompt, env);
        return outcome;
      }
      results := outcome.value;
      i, k := hi, k + 1;
    }
    assert bs[k..] == [];
    assert bs[..k] == bs;
    r := Ok(results);
  }

  /** The body of the loop for one batch (test.py:190-220): encode, call, parse, merge. */
  method CallBatch(results: Dict<string, Record>, batch: seq<string>, k: nat, prompt: string, env: Services)
    returns (r: Result<Dict<string, Record>>)
    ensures r == Step(Ok(results), batch, k, prompt, env)
  {
    var sent := SentPaths(batch, env.encode);
    if sent == [] {
      return Ok(results);
    }
    var reply := env.vision(k, prompt, Images(sent, env.encode));
    match reply
    case Raised(m) =>
      r := Err(m);
    case NoContent =>
      r := Err(NoContentMessage);
    case Content(t) =>
      var batchResults := ParseJsonResponses(t, batch, env.decode);
      ParseUnique(Blocks(t), batch, env.decode);
      r := Ok(Update(results, batchResults));
  }

  /** The batch that starts at path `i` is batch number `k`, and it ends at `hi`. */
  lemma BatchesFront(paths: seq<string>, i: nat, hi: nat, size: nat, bs: seq<seq<string>>, k: nat)
    requires size > 0 && i < |paths| && k <= |bs|
    requires hi == if i + size <= |paths| then i + size else |paths|
    requires bs[k..] == Batches(paths[i..], size)
    ensures k < |bs| && bs[k] == paths[i..hi]
    ensures bs[k + 1..] == Batches(paths[hi..], size)
  {
    var rest := paths[i..];
    assert bs[k..][0] == bs[k];
    assert bs[k + 1..] == bs[k..][1..];
    if |rest| <= size {
      assert hi == |paths|;
      assert rest == paths[i..hi];
    } else {
      assert rest[..size] == paths[i..hi];
      assert rest[size..] == paths[hi..];
    }
  }

  lemma MergeSnoc(bs: seq<seq<string>>, k: nat, prompt: string, env: Services)
    requires k < |bs|
    ensures Merge(bs[..k + 1], prompt, env) == Step(Merge(bs[..k], prompt, env), bs[k], k, prompt, env)
  {
    assert bs[..k + 1][..k] == bs[..k];
  }

  /** Once a batch has failed, the later batches change nothing. */
  lemma {:induction false} MergeErrExtends(bs: seq<seq<string>>, k: nat, prompt: string, env: Services)
    requires k <= |bs| && Merge(bs[..k], prompt, env).Err?
    ensures Merge(bs, prompt, env) == Merge(bs[..k], prompt, env)
    decreases |bs| - k
  {
    if k < |bs| {
      MergeSnoc(bs, k, prompt, env);
      MergeErrExtends(bs, k + 1, prompt, env);
    } else {
      assert bs[..k] == bs;
    }
  }

  /** The parse of one reply has each key once, as `dict.update` expects of a dict. */
  lemma ParseUnique(blocks: seq<string>, paths: seq<string>, decode: string -> Decoded)
    ensures UniqueKeys(ParseSpec(blocks, paths, decode))
  {
    var d: Dict<string, Record> := Empty();
    assert Keys(d) == [];
  }

  /** Any failing call ends the run with its error: the dictionaries of earlier batches
      are discarded and later batches are not processed (test.py:226-228). */
  lemma FailureDiscards(bs: seq<seq<string>>, k: nat, prompt: string, env: Services, m: string)
    requires k < |bs| && Merge(bs[..k], prompt, env).Ok?
    requires SentPaths(bs[k], env.encode) != []
    requires env.vision(k, prompt, Images(SentPaths(bs[k], env.encode), env.encode)) == Raised(m)
    ensures Merge(bs, prompt, env) == Err(m)
  {
    MergeSnoc(bs, k, prompt, env);
    MergeErrExtends(bs, k + 1, prompt, env);
  }

  /** A batch none of whose images encodes is skipped: whatever the vision service
      would answer, the result stays as it was (test.py:197-199). */
  lemma SkippedBatchMakesNoCall(acc: Result<Dict<string, Record>>, batch: seq<string>, n: nat, prompt: string, env: Services, other: (nat, string, seq<string>) -> Reply)
    requires forall j :: 0 <= j < |batch| ==> !Processable(env.encode, batch[j])
    ensures Step(acc, batch, n, prompt, env) == acc
    ensures Step(acc, batch, n, prompt, env.(vision := other)) == acc
  {
    KeepNone(batch, p => Processable(env.encode, p));
  }

  /** Merging a batch's dictionary with `dict.update`: a key the new batch files takes
      the new record, overwriting an earlier batch's; every other key keeps the record
      it had (test.py:220). */
  lemma LaterBatchOverwrites(bs: seq<seq<string>>, b: seq<string>, prompt: string, env: Services, t: string, key: string)
    requires Merge(bs, prompt, env).Ok?
    requires SentPaths(b, env.encode) != []
    requires env.vision(|bs|, prompt, Images(SentPaths(b, env.encode), env.encode)) == Content(t)
    ensures Merge(bs + [b], prompt, env).Ok?
    ensures Get(Merge(bs + [b], prompt, env).value, key) ==
      if key in Keys(ParseSpec(Blocks(t), b, env.decode)) then Get(ParseSpec(Blocks(t), b, env.decode), key)
      else Get(Merge(bs, prompt, env).value, key)
  {
    assert (bs + [b])[..|bs|] == bs;
  }

  lemma {:induction false} FlattenAppend(a: seq<seq<string>>, b: seq<seq<string>>)
    ensures Flatten(a + b) == Flatten(a) + Flatten(b)
  {
    if a == [] {
      assert a + b == b;
    } else {
      assert (a + b)[0] == a[0];
      assert (a + b)[1..] == a[1..] + b;
      FlattenAppend(a[1..], b);
    }
  }

  /** A path of the last batch is one of the paths of all batches. */
  lemma InFlattenLast(bs: seq<seq<string>>, p: string)
    requires bs != [] && p in bs[|bs| - 1]
    ensures p in Flatten(bs)
  {
    var init, last := bs[..|bs| - 1], [bs[|bs| - 1]];
    assert init + last == bs;
    FlattenAppend(init, last);
    assert Flatten(last) == bs[|bs| - 1] + Flatten([]);
  }

  /** A path of the batches before the last is one of the paths of all batches. */
  lemma InFlattenInit(bs: seq<seq<string>>, p: string)
    requires bs != [] && p in Flatten(bs[..|bs| - 1])
    ensures p in Flatten(bs)
  {
    var init, last := bs[..|bs| - 1], [bs[|bs| - 1]];
    assert init + last == bs;
    FlattenAppend(init, last);
  }

  /** As the code is written, every stored key is the basename of some path of the run,
      whether or not its image was sent. */
  lemma {:induction false} MergeKeys(bs: seq<seq<string>>, prompt: string, env: Services, key: string)
    requires Merge(bs, prompt, env).Ok? && key in Keys(Merge(bs, prompt, env).value)
    ensures exists p :: p in Flatten(bs) && Basename(p) == key
  {
    var n := |bs| - 1;
    var before := Merge(bs[..n], prompt, env);
    var sent := SentPaths(bs[n], env.encode);
    if sent != [] && key !in Keys(before.value) {
      match env.vision(n, prompt, Images(sent, env.encode))
      case Content(t) =>
        ParseKeysFromPaths(Blocks(t), bs[n], env.decode, key);
        var k :| 0 <= k < |bs[n]| && Basename(bs[n][k]) == key;
        InFlattenLast(bs, bs[n][k]);
    } else {
      MergeKeys(bs[..n], prompt, env, key);
      var p :| p in Flatten(bs[..n]) && Basename(p) == key;
      InFlattenInit(bs, p);
    }
  }

  /** Every key `analyze_images` returns is the basename of one of its paths. */
  lemma AnalyzeKeys(paths: seq<string>, prompt: string, size: int, env: Services, key: string)
    requires Analyze(paths, prompt, size, env).Ok? && key in Keys(Analyze(paths, prompt, size, env).value)
    ensures exists p :: p in paths && Basename(p) == key
  {
    MergeKeys(Batches(paths, size), prompt, env, key);
  }

  /** Batch number `n` as evidently intended: the reply describes only the images that
      were sent, so it is parsed against their paths. */
  function StepSent(acc: Result<Dict<string, Record>>, batch: seq<string>, n: nat, prompt: string, env: Services): Result<Dict<string, Record>> {
    if acc.Err? then acc
    else Outcome(acc.value, SentPaths(batch, env.encode), SentPaths(batch, env.encode), n, prompt, env)
  }

  function MergeSent(bs: seq<seq<string>>, prompt: string, env: Services): Result<Dict<string, Record>> {
    if bs == [] then Ok(Empty())
    else StepSent(MergeSent(bs[..|bs| - 1], prompt, env), bs[|bs| - 1], |bs| - 1, prompt, env)
  }

  /** `analyze_images` with each reply paired with the images it describes. */
  function AnalyzeSent(paths: seq<string>, prompt: string, size: int, env: Services): Result<Dict<string, Record>> {
    if size == 0 then Err(ZeroStepMessage)
    else if size < 0 then Ok(Empty())
    else MergeSent(Batches(paths, size), prompt, env)
  }

  /** With replies paired with the sent images, every stored key is the basename of a
      path whose image was sent. */
  lemma {:induction false} MergeSentKeys(bs: seq<seq<string>>, prompt: string, env: Services, key: string)
    requires MergeSent(bs, prompt, env).Ok? && key in Keys(MergeSent(bs, prompt, env).value)
    ensures exists p :: p in Flatten(bs) && Processable(env.encode, p) && Basename(p) == key
  {
    var n := |bs| - 1;
    var before := MergeSent(bs[..n], prompt, env);
    var sent := SentPaths(bs[n], env.encode);
    if sent != [] && key !in Keys(before.value) {
      match env.vision(n, prompt, Images(sent, env.encode))
      case Content(t) =>
        ParseKeysFromPaths(Blocks(t), sent, env.decode, key);
        var k :| 0 <= k < |sent| && Basename(sent[k]) == key;
        assert sent[k] in sent;
        InFlattenLast(bs, sent[k]);
    } else {
      MergeSentKeys(bs[..n], prompt, env, key);
      var p :| p in Flatten(bs[..n]) && Processable(env.encode, p) && Basename(p) == key;
      InFlattenInit(bs, p);
    }
  }

  /** Every key of the corrected run names an image that was sent. */
  lemma SentKeys(paths: seq<string>, prompt: string, size: int, env: Services, key: string)
    requires AnalyzeSent(paths, prompt, size, env).Ok? && key in Keys(AnalyzeSent(paths, prompt, size, env).value)
    ensures exists p :: p in paths && Processable(env.encode, p) && Basename(p) == key
  {
    MergeSentKeys(Batches(paths, size), prompt, env, key);
  }

  /** As written, with two paths in one batch where only the second image encodes, the
      one-object reply about the second image is filed under the first path, whose
      image was never sent, and the image that was sent gets no record. */
  lemma UnsentImageFiled(a: string, b: string, prompt: string, env: Services, t: string)
    requires !Processable(env.encode, a) && Processable(env.encode, b)
    requires Basename(a) != Basename(b)
    requires env.vision(0, prompt, Images([b], env.encode)) == Content(t)
    requires |Blocks(t)| == 1 && env.decode(Blocks(t)[0]).Value? && env.decode(Blocks(t)[0]).v.JObj?
    ensures Analyze([a, b], prompt, 2, env).Ok?
    ensures Basename(a) in Keys(Analyze([a, b], prompt, 2, env).value)
    ensures Basename(b) !in Keys(Analyze([a, b], prompt, 2, env).value)
  {
    var parsed := ParseSpec(Blocks(t), [a, b], env.decode);
    AnalyzeOneBatch([a, b], prompt, 2, env);
    KeepSecond(a, b, env.encode);
    assert Analyze([a, b], prompt, 2, env) == Ok(Update(Empty(), parsed));
    UpdateEmptyKeys(parsed);
    assert Basename(a) in Keys(Update(Empty(), parsed)) <==> Basename(a) in Keys(parsed);
    assert Basename(b) in Keys(Update(Empty(), parsed)) <==> Basename(b) in Keys(parsed);
    OneBlockKeys(Blocks(t), a, b, env.decode, Basename(a));
    OneBlockKeys(Blocks(t), a, b, env.decode, Basename(b));
  }

  /** Paths that fit in one batch are processed by one step. */
  lemma AnalyzeOneBatch(paths: seq<string>, prompt: string, size: int, env: Services)
    requires 0 < |paths| <= size
    ensures Analyze(paths, prompt, size, env) == Step(Ok(Empty()), paths, 0, prompt, env)
  {
    assert Batches(paths, size) == [paths];
    assert [paths][..0] == [];
    var none: seq<seq<string>> := [];
    assert Merge(none, prompt, env) == Ok(Empty());
    assert Merge([paths], prompt, env) == Step(Merge(none, prompt, env), paths, 0, prompt, env);
  }

  lemma KeepSecond(a: string, b: string, encode: string -> Option<string>)
    requires !Processable(encode, a) && Processable(encode, b)
    ensures SentPaths([a, b], encode) == [b]
  {
    assert [a, b][1..] == [b];
    assert [b][1..] == [];
  }

  lemma UpdateEmptyKeys(e: Dict<string, Record>)
    requires UniqueKeys(e)
    ensures forall key :: key in Keys(Update(Empty(), e)) <==> key in Keys(e)
  {
    var d: Dict<string, Record> := Empty();
    assert Keys(d) == [];
  }

  /** A reply of one object block parsed against two paths files it under the first. */
  lemma OneBlockKeys(blocks: seq<string>, a: string, b: string, decode: string -> Decoded, key: string)
    requires |blocks| == 1 && decode(blocks[0]).Value? && decode(blocks[0]).v.JObj?
    ensures key in Keys(ParseSpec(blocks, [a, b], decode)) <==> Basename(a) == key
  {
    var pairs := Zip([a, b], blocks);
    assert pairs[0] == (a, blocks[0]);
    assert !HasNonObject(pairs, decode);
    ParseKeys(blocks, [a, b], decode, key);
  }

  lemma SentSingleton(p: string, encode: string -> Option<string>)
    ensures SentPaths([p], encode) == if Processable(encode, p) then [p] else []
  {
    assert [p][1..] == [];
  }

  /** With one path per batch, the default, pairing with the batch and pairing with the
      sent images agree: a batch is either sent whole or skipped. */
  lemma {:induction false} SingletonBatchesAgree(bs: seq<seq<string>>, prompt: string, env: Services)
    requires forall j :: 0 <= j < |bs| ==> |bs[j]| == 1
    ensures Merge(bs, prompt, env) == MergeSent(bs, prompt, env)
  {
    if bs != [] {
      var n := |bs| - 1;
      SingletonBatchesAgree(bs[..n], prompt, env);
      assert bs[n] == [bs[n][0]];
      SentSingleton(bs[n][0], env.encode);
    }
  }

  /** `analyze_images` as called by the script, with `batch_size=1`, is not affected by
      the pairing with the whole batch. */
  lemma DefaultBatchSizeUnaffected(paths: seq<string>, prompt: string, env: Services)
    ensures Analyze(paths, prompt, 1, env) == AnalyzeSent(paths, prompt, 1, env)
  {
    SingletonBatchesAgree(Batches(paths, 1), prompt, env);
  }
}
