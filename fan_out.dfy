/**
 * The fan-out of VerilogGenBenchmark.get_response (benchmark_infer.py): every
 * prompt is repeated response_batch times, the model answers each copy, and
 * every answer is turned into a code record. run_RTLLM_v1 then sends answer
 * cid to task cid / response_batch and to the directory
 * test_{cid % response_batch}.
 *
 * The language model is not modelled: its answers arrive as a parameter, one
 * per conversation, in the order of the conversations.
 */
module FanOut {
  import opened Common
  import opened Text
  import opened CodeExtract

  const SystemPrompt: string := "You are a helpful assistant."

  /** What one conversation sends to the model: a system/user pair, or the bare prompt. */
  datatype Conversation = Chat(system: string, user: string) | Plain(prompt: string)

  /** full_prompt for one prompt. */
  function Wrap(prompt: string, useTemplate: bool): (c: Conversation)
    ensures useTemplate <==> c.Chat?
    ensures c == Chat(SystemPrompt, prompt) || c == Plain(prompt)
  {
    if useTemplate then Chat(SystemPrompt, prompt) else Plain(prompt)
  }

  // ---------------------------------------------------------------------
  // Index arithmetic of the fan-out.

  /** Position r of block q, with blocks of b entries, is entry q * b + r: Euclidean division is unique. */
  lemma BlockPosition(q: nat, b: nat, r: nat)
    requires r < b
    ensures (q * b + r) / b == q && (q * b + r) % b == r
  {
    var x := q * b + r;
    var q2, r2 := x / b, x % b;
    assert x == q2 * b + r2 && r2 < b;
    if q2 < q {
      MulMonotone(q2 + 1, q, b);
      assert false;
    } else if q < q2 {
      MulMonotone(q + 1, q2, b);
      assert false;
    }
  }

  lemma MulMonotone(u: nat, v: nat, b: nat)
    requires u <= v
    ensures u * b <= v * b
  {
  }

  /** t blocks of b entries hold no entry exactly when there is no block or blocks are empty. */
  lemma NoEntries(t: nat, b: nat)
    ensures t * b == 0 <==> t == 0 || b == 0
  {
    if t > 0 && b > 0 {
      MulMonotone(1, t, b);
    }
  }

  /** Every entry cid of t blocks of b lies in block cid / b < t, at position cid % b < b. */
  lemma EntryInBlock(t: nat, b: nat, cid: nat)
    requires cid < t * b
    ensures b > 0 && cid / b < t && cid % b < b
    ensures cid == (cid / b) * b + cid % b
  {
    var q := cid / b;
    if q >= t {
      MulMonotone(t, q, b);
    }
  }

  /** The first entry of block q + 1 comes right after the last entry of block q. */
  lemma NextBlock(q: nat, b: nat)
    ensures q * b + b == (q + 1) * b
  {
  }

  // ---------------------------------------------------------------------
  // get_response, lines 207-224: building the conversations.

  /** all_conversations: prompt p fills the entries p * batch up to (p + 1) * batch. */
  method BuildConversations(prompts: seq<string>, batch: nat, useTemplate: bool) returns (convs: seq<Conversation>)
    ensures |convs| == |prompts| * batch
    ensures forall i :: 0 <= i < |convs| ==> i / batch < |prompts| && convs[i] == Wrap(prompts[i / batch], useTemplate)
  {
    convs := [];
    var p := 0;
    while p < |prompts|
      invariant p <= |prompts|
      invariant |convs| == p * batch
      invariant forall i :: 0 <= i < |convs| ==> i / batch < p && convs[i] == Wrap(prompts[i / batch], useTemplate)
    {
      var fullPrompt := if useTemplate then Chat(SystemPrompt, prompts[p]) else Plain(prompts[p]);
      var j := 0;
      while j < batch
        invariant j <= batch
        invariant |convs| == p * batch + j
        invariant forall i :: 0 <= i < |convs| ==> i / batch <= p && convs[i] == Wrap(prompts[i / batch], useTemplate)
      {
        BlockPosition(p, batch, j);
        convs := convs + [fullPrompt];
        j := j + 1;
      }
      NextBlock(p, batch);
      forall i | 0 <= i < |convs| ensures i / batch < p + 1 {
        EntryInBlock(p + 1, batch, i);
      }
      p := p + 1;
    }
  }

  // ---------------------------------------------------------------------
  // get_response, lines 237-252: turning answers into code records.

  /** code_results for one answer. */
  datatype CodeResult = CodeResult(fullCode: string, codeHeader: string, codeBody: string, directOutput: string)

  /** The exception of get_response: all_conversations[0] on an empty list. */
  datatype Failure = NoConversations

  /**
   * One answer's record: the code without comments and blank lines, its
   * module header and body as extract_verilog splits it, the body replaced
   * by the whole code when it is empty, and the raw answer.
   */
  function Record(text: string): CodeResult {
    var code := GetCodeWoNotes(text);
    var (header, body) := SplitHeader(code);
    CodeResult(code, header, if body != [] then body else code, text)
  }

  /**
   * What a record holds: the raw answer; its code, which is get_code_wo_notes
   * of the answer and so has only non-blank lines without trailing
   * whitespace; the header extract_verilog cuts from that code; and a body
   * that is the rest of the code, or the whole code when the rest is empty,
   * so that it is empty only when the code is.
   */
  lemma RecordMeaning(text: string)
    ensures var r := Record(text);
      && r.directOutput == text
      && r.fullCode == GetCodeWoNotes(text)
      && (forall l :: l in SplitLines(r.fullCode) ==> CleanLine(l))
      && r.codeHeader == SplitHeader(r.fullCode).0
      && (r.codeBody == SplitHeader(r.fullCode).1 || (SplitHeader(r.fullCode).1 == [] && r.codeBody == r.fullCode))
      && (r.codeBody == [] ==> r.fullCode == [])
  {
    GetCodeWoNotesLines(text);
  }

  lemma RecordOf(text: string, code: string, header: string, body: string)
    requires code == GetCodeWoNotes(text) && (header, body) == SplitHeader(code)
    ensures Record(text) == CodeResult(code, header, if body != [] then body else code, text)
  {
  }

  /** f applied to every element, in order. */
  function MapSeq<A, B>(f: A -> B, xs: seq<A>): seq<B> {
    if xs == [] then [] else MapSeq(f, xs[..|xs| - 1]) + [f(xs[|xs| - 1])]
  }

  lemma {:induction false} MapSeqAt<A, B>(f: A -> B, xs: seq<A>)
    ensures |MapSeq(f, xs)| == |xs|
    ensures forall i :: 0 <= i < |xs| ==> MapSeq(f, xs)[i] == f(xs[i])
  {
    if xs != [] {
      MapSeqAt(f, xs[..|xs| - 1]);
    }
  }

  /** Mapping over one more element of a prefix appends its image. */
  lemma MapSeqPrefix<A, B>(f: A -> B, xs: seq<A>, i: nat)
    requires i < |xs|
    ensures MapSeq(f, xs[..i + 1]) == MapSeq(f, xs[..i]) + [f(xs[i])]
  {
    assert xs[..i + 1][..i] == xs[..i];
  }

  /** Result_dict for the answers in order. */
  function Records(answers: seq<string>): seq<CodeResult> {
    MapSeq(Record, answers)
  }

  /** Result_dict has one record per answer, at the answer's own index. */
  lemma RecordsAt(answers: seq<string>)
    ensures |Records(answers)| == |answers|
    ensures forall i :: 0 <= i < |answers| ==> Records(answers)[i] == Record(answers[i])
  {
    MapSeqAt(Record, answers);
  }

  /** Lines 239-249: the record of one answer. */
  method RecordOne(text: string) returns (record: CodeResult)
    ensures record == Record(text)
  {
    var code := GetCodeWoNotes(text);
    var header, body := ExtractVerilog(code);
    record := CodeResult(code, header, if body != [] then body else code, text);
    RecordOf(text, code, header, body);
  }

  /** Lines 238-251: one record per answer, in order. */
  method RecordAll(answers: seq<string>) returns (results: seq<CodeResult>)
    ensures results == Records(answers)
  {
    results := [];
    var idx := 0;
    while idx < |answers|
      invariant idx <= |answers|
      invariant results == Records(answers[..idx])
    {
      var record := RecordOne(answers[idx]);
      MapSeqPrefix(Record, answers, idx);
      results := results + [record];
      idx := idx + 1;
    }
    assert answers[..idx] == answers;
  }

  /**
   * get_response: the conversations, then one record per answer. With no
   * prompt or a batch of 0 the diagnostic print of the first conversation
   * raises before the model is called.
   */
  method GetResponse(prompts: seq<string>, batch: nat, useTemplate: bool, answers: seq<string>)
    returns (convs: seq<Conversation>, r: Result<seq<CodeResult>, Failure>)
    requires |answers| == |prompts| * batch
    ensures |convs| == |prompts| * batch
    ensures forall i :: 0 <= i < |convs| ==> i / batch < |prompts| && convs[i] == Wrap(prompts[i / batch], useTemplate)
    ensures r.Err? <==> |prompts| == 0 || batch == 0
    ensures r.Ok? ==> r.value == Records(answers)
  {
    convs := BuildConversations(prompts, batch, useTemplate);
    NoEntries(|prompts|, batch);
    if |convs| == 0 {
      return convs, Err(NoConversations);
    }
    var results := RecordAll(answers);
    r := Ok(results);
  }

  // ---------------------------------------------------------------------
  // run_RTLLM_v1, lines 455-486: where each answer is written.

  /** A sampling temperature of 0.0 draws one answer per task, whatever batch was asked for. */
  function EffectiveBatch(temperature: real, batch: nat): (b: nat)
    ensures temperature == 0.0 ==> b == 1
    ensures temperature != 0.0 ==> b == batch
  {
    if temperature == 0.0 then 1 else batch
  }

  /** One file write: test_{dir}/{task}.v receives content. */
  datatype Write = Write(dir: nat, task: string, content: string)

  /** The writes of lines 483-486, in order. */
  method WriteRtllm(taskIds: seq<string>, results: seq<CodeResult>, batch: nat) returns (writes: seq<Write>)
    requires |results| == |taskIds| * batch
    ensures |writes| == |taskIds| * batch
    ensures forall cid :: 0 <= cid < |writes| ==>
      && cid / batch < |taskIds|
      && writes[cid] == Write(cid % batch, taskIds[cid / batch], results[cid].fullCode)
  {
    writes := [];
    var idx := 0;
    while idx < |taskIds|
      invariant idx <= |taskIds|
      invariant |writes| == idx * batch
      invariant forall cid :: 0 <= cid < |writes| ==>
        && cid / batch < idx
        && writes[cid] == Write(cid % batch, taskIds[cid / batch], results[cid].fullCode)
    {
      NextBlock(idx, batch);
      MulMonotone(idx + 1, |taskIds|, batch);
      ghost var start := idx * batch;
      ghost var before := writes;
      writes := WriteTask(taskIds[idx], results, idx, batch, writes);
      forall c | 0 <= c < |writes|
        ensures c / batch < idx + 1
        ensures writes[c] == Write(c % batch, taskIds[c / batch], results[c].fullCode)
      {
        if c < start {
          assert writes[c] == before[c];
        } else {
          BlockPosition(idx, batch, c - start);
        }
      }
      idx := idx + 1;
    }
  }

  /** The inner loop of lines 484-486: the writes of the answers of task idx, appended. */
  method WriteTask(task: string, results: seq<CodeResult>, idx: nat, batch: nat, before: seq<Write>) returns (writes: seq<Write>)
    requires |before| == idx * batch && idx * batch + batch <= |results|
    ensures |writes| == idx * batch + batch && writes[..idx * batch] == before
    ensures forall c :: idx * batch <= c < |writes| ==> writes[c] == Write(c - idx * batch, task, results[c].fullCode)
  {
    writes := before;
    var start := idx * batch;
    NextBlock(idx, batch);
    var cid := idx * batch;
    while cid < (idx + 1) * batch
      invariant start <= cid <= start + batch
      invariant |writes| == cid && writes[..start] == before
      invariant forall c :: start <= c < cid ==> writes[c] == Write(c - start, task, results[c].fullCode)
    {
      BlockPosition(idx, batch, cid - start);
      writes := writes + [Write(cid % batch, task, results[cid].fullCode)];
      cid := cid + 1;
    }
  }

  /**
   * With distinct task ids, every (task, directory) pair with a directory
   * test_0 .. test_{batch-1} is written by exactly one answer: answer
   * idx * batch + r goes to task idx and directory r, and no other answer does.
   */
  lemma EachPairWrittenOnce(taskIds: seq<string>, batch: nat, idx: nat, r: nat, cid: nat)
    requires forall i, j :: 0 <= i < j < |taskIds| ==> taskIds[i] != taskIds[j]
    requires idx < |taskIds| && r < batch && cid < |taskIds| * batch
    ensures idx * batch + r < |taskIds| * batch
    ensures (cid % batch == r && taskIds[cid / batch] == taskIds[idx]) <==> cid == idx * batch + r
  {
    BlockPosition(idx, batch, r);
    NextBlock(idx, batch);
    MulMonotone(idx + 1, |taskIds|, batch);
    EntryInBlock(|taskIds|, batch, cid);
  }

  /**
   * At temperature 0.0 the batch is 1: the writes of lines 483-486 put each
   * task's single answer in test_0, in task order, and with distinct task
   * ids each task is written by exactly one answer, its own.
   */
  lemma GreedyWritesOnce(taskIds: seq<string>, results: seq<CodeResult>, batch: nat, writes: seq<Write>)
    requires var b := EffectiveBatch(0.0, batch);
      && |results| == |taskIds| * b
      && |writes| == |taskIds| * b
      && forall cid :: 0 <= cid < |writes| ==>
        && cid / b < |taskIds|
        && writes[cid] == Write(cid % b, taskIds[cid / b], results[cid].fullCode)
    ensures |writes| == |taskIds|
    ensures forall i :: 0 <= i < |taskIds| ==> writes[i] == Write(0, taskIds[i], results[i].fullCode)
    ensures (forall i, j :: 0 <= i < j < |taskIds| ==> taskIds[i] != taskIds[j]) ==>
      forall i, cid :: 0 <= i < |taskIds| && 0 <= cid < |writes| ==> (writes[cid].task == taskIds[i] <==> cid == i)
  {
    forall i | 0 <= i < |taskIds| ensures writes[i] == Write(0, taskIds[i], results[i].fullCode) {
      assert i / 1 == i && i % 1 == 0;
    }
  }
}
