/**
 The verdict logic: the walk that folds a classifier reply into the module-wide
 `inappropriateImage` flag, and `checkImage`, which resets that flag, runs the
 walk and reports the verdict. The flag is threaded explicitly: every operation
 takes the flag it finds and returns the flag it leaves.
 */
module Verdict {
  import opened Wrappers
  import opened Json

  /** Confidences at or above this value flag the image. */
  const Threshold: real := 0.5

  /** Metadata keys skipped inside a category object (and only there). */
  predicate IsMetadataKey(k: string)
  {
    k == "timestamp" || k == "operations" || k == "none"
  }

  /** `compareAPIData`: raise the flag when the confidence reaches the threshold;
      the value returned is the flag afterwards. */
  function Compare(flag: bool, confidence: real): (flag': bool)
    ensures confidence >= Threshold ==> flag'
    ensures confidence < Threshold ==> flag' == flag
  {
    if confidence >= Threshold then true else flag
  }

  // ---------------------------------------------------------------------------
  // What the walk reads, stated without the walk

  /** An entry of a category object that the walk compares and finds at or above
      the threshold: a number under a key other than the metadata keys. */
  predicate InnerHit(e: (string, JValue))
  {
    e.1.JNum? && !IsMetadataKey(e.0) && e.1.n >= Threshold
  }

  predicate AnyInnerHit(fields: seq<(string, JValue)>)
  {
    exists j :: 0 <= j < |fields| && InnerHit(fields[j])
  }

  /** A top-level entry that flags the image: a number at or above the threshold,
      whatever its key, or an object or array holding an inner hit. */
  predicate TopHit(e: (string, JValue))
  {
    match e.1
    case JNum(x) => x >= Threshold
    case JObj(_) => AnyInnerHit(Entries(e.1))
    case JArr(_) => AnyInnerHit(Entries(e.1))
    case _ => false
  }

  /** The reply flags the image: some top-level entry is a hit. */
  predicate Flagged(response: JValue)
  {
    var es := Entries(response);
    exists i :: 0 <= i < |es| && TopHit(es[i])
  }

  /** The walk cannot finish: the reply is null, or some top-level value is null
      (`typeof null` is `'object'`, and enumerating the keys of null throws). */
  predicate Unanalysable(response: JValue)
  {
    var es := Entries(response);
    response.JNull? || exists i :: 0 <= i < |es| && es[i].1.JNull?
  }

  // ---------------------------------------------------------------------------
  // The walk

  /** How a walk ended, with the flag as it was left. */
  datatype Walk = Completed(flag: bool) | Aborted(flag: bool)

  /** The inner loop over a category object's entries, left to right. */
  function InnerWalk(flag: bool, fields: seq<(string, JValue)>): (flag': bool)
    ensures flag' <==> flag || AnyInnerHit(fields)
    decreases |fields|
  {
    if |fields| == 0 then flag
    else
      var (k, v) := fields[0];
      var f := if v.JNum? && !IsMetadataKey(k) then Compare(flag, v.n) else flag;
      assert AnyInnerHit(fields) <==> InnerHit(fields[0]) || AnyInnerHit(fields[1..]) by {
        if AnyInnerHit(fields) && !InnerHit(fields[0]) {
          var j :| 0 <= j < |fields| && InnerHit(fields[j]);
          assert fields[1..][j - 1] == fields[j];
        }
        if AnyInnerHit(fields[1..]) {
          var j :| 0 <= j < |fields[1..]| && InnerHit(fields[1..][j]);
          assert fields[j + 1] == fields[1..][j];
        }
      }
      InnerWalk(f, fields[1..])
  }

  /** The outer loop over the reply's top-level entries, left to right. Numbers are
      compared whatever their key; objects and arrays get the inner loop; a null
      aborts the walk; strings and booleans are passed over. */
  function TopWalk(flag: bool, fields: seq<(string, JValue)>): (w: Walk)
    ensures flag ==> w.flag
    ensures w.Aborted? <==> exists i :: 0 <= i < |fields| && fields[i].1.JNull?
    ensures w.Completed? ==> (w.flag <==> flag || exists i :: 0 <= i < |fields| && TopHit(fields[i]))
    decreases |fields|
  {
    if |fields| == 0 then Completed(flag)
    else
      var v := fields[0].1;
      var rest := fields[1..];
      assert forall i :: 0 <= i < |rest| ==> rest[i] == fields[i + 1];
      assert forall i :: 1 <= i < |fields| ==> fields[i] == rest[i - 1];
      match v
      case JNull => Aborted(flag)
      case JNum(x) => TopWalk(Compare(flag, x), rest)
      case JObj(_) => TopWalk(InnerWalk(flag, Entries(v)), rest)
      case JArr(_) => TopWalk(InnerWalk(flag, Entries(v)), rest)
      case _ => TopWalk(flag, rest)
  }

  /** `analyseImageAPIData`: the flag can only rise; the walk completes exactly when
      the reply is analysable, and then the flag is raised exactly when the reply
      is flagged. */
  function Analyse(flag: bool, response: JValue): (w: Walk)
    ensures flag ==> w.flag
    ensures w.Aborted? <==> Unanalysable(response)
    ensures w.Completed? ==> (w.flag <==> flag || Flagged(response))
  {
    if response.JNull? then Aborted(flag) else TopWalk(flag, Entries(response))
  }

  // ---------------------------------------------------------------------------
  // checkImage

  /** The value `checkImage` resolves with: the reply and the flag read back. */
  datatype CheckResult = CheckResult(response: JValue, inappropriateImage: bool)

  /** A call's result (`None` for `undefined`) and the module flag it leaves. */
  datatype Checked = Checked(result: Option<CheckResult>, flag: bool)

  /** `checkImage`: reset the flag, then fold the reply in. `reply` is what the
      classifier request produced; `None` is a request that failed. A failed
      request or an aborted walk resolves with no value. */
  function CheckImage(flag: bool, reply: Option<JValue>): (c: Checked)
    ensures reply.None? ==> c == Checked(None, false)
    ensures reply.Some? ==> (c.result.None? <==> Unanalysable(reply.value))
    ensures c.result.Some? ==> reply.Some? && c.result.value.response == reply.value
    ensures c.result.Some? ==> (c.result.value.inappropriateImage <==> Flagged(reply.value))
    ensures c.result.Some? ==> c.flag == c.result.value.inappropriateImage
  {
    match reply
    case None => Checked(None, false)
    case Some(data) =>
      match Analyse(false, data)
      case Aborted(f) => Checked(None, f)
      case Completed(f) => Checked(Some(CheckResult(data, f)), f)
  }

  /** The classifier outcome a handler acts on, stated from the reply alone. */
  datatype Outcome = Inappropriate(data: JValue) | Appropriate | Failed

  function Classify(reply: Option<JValue>): Outcome
  {
    match reply
    case None => Failed
    case Some(d) => if Unanalysable(d) then Failed else if Flagged(d) then Inappropriate(d) else Appropriate
  }

  /** Because the flag is reset first, a call's verdict depends on its own reply
      only, never on the flag an earlier call left behind. */
  lemma CheckImageIgnoresEarlierFlag(flag1: bool, flag2: bool, reply: Option<JValue>)
    ensures CheckImage(flag1, reply) == CheckImage(flag2, reply)
    ensures CheckImage(flag1, reply).result.None? <==> Classify(reply).Failed?
    ensures CheckImage(flag1, reply).result.Some? ==>
              (CheckImage(flag1, reply).result.value.inappropriateImage <==> Classify(reply).Inappropriate?)
  {
  }

  // ---------------------------------------------------------------------------
  // Properties of the walk

  /** The flag is sticky: a comparison below the threshold leaves a raised flag
      raised, and the source's test sequence (0.4 on a fresh flag, then 0.7) reads
      false then true. The threshold is inclusive. */
  lemma CompareExamples()
    ensures !Compare(false, 0.4) && Compare(Compare(false, 0.4), 0.7)
    ensures Compare(true, 0.4)
    ensures Compare(false, 0.5) && !Compare(false, 0.49)
  {
  }

  /** Folding a reply into a raised flag or a lowered one differs only by that flag:
      on a completed walk the result is the incoming flag or-ed with the verdict. */
  lemma AnalyseIsMonotoneOr(flag: bool, response: JValue)
    ensures Analyse(flag, response).Completed? == Analyse(false, response).Completed?
    ensures Analyse(flag, response).Completed? ==>
              Analyse(flag, response).flag == (flag || Analyse(false, response).flag)
  {
  }

  /** Metadata keys are skipped only inside category objects: a top-level numeric
      `timestamp` is compared like any other number, an inner one is not. */
  lemma MetadataKeysOnlyInner()
    ensures Analyse(false, JObj([("timestamp", JNum(0.99))])) == Completed(true)
    ensures Analyse(false, JObj([("nudity", JObj([("timestamp", JNum(0.99)), ("none", JNum(0.99))]))])) == Completed(false)
  {
    var inner: seq<(string, JValue)> := [("timestamp", JNum(0.99)), ("none", JNum(0.99))];
    assert !InnerHit(inner[0]) && !InnerHit(inner[1]);
    assert !AnyInnerHit(inner);
  }

  /** Reply shapes a moderation reply takes: a top-level number flags at 0.5 and not
      at 0.49, every non-metadata number inside a category counts, a value three
      levels down is not read, and a null category aborts the walk. */
  lemma VerdictExamples()
    ensures Analyse(false, JObj([("weapon", JNum(0.5))])) == Completed(true)
    ensures Analyse(false, JObj([("weapon", JNum(0.49))])) == Completed(false)
    ensures Analyse(false, JObj([("nudity", JObj([("raw", JNum(0.4)), ("safe", JNum(0.9))]))])) == Completed(true)
    ensures Analyse(false, JObj([("nudity", JObj([("raw", JObj([("x", JNum(0.9))]))]))])) == Completed(false)
    ensures Analyse(false, JObj([("status", JStr("success")), ("nudity", JNull)])).Aborted?
  {
    var a: seq<(string, JValue)> := [("raw", JNum(0.4)), ("safe", JNum(0.9))];
    assert InnerHit(a[1]);
    var b: seq<(string, JValue)> := [("raw", JObj([("x", JNum(0.9))]))];
    assert !InnerHit(b[0]);
    var c: seq<(string, JValue)> := [("status", JStr("success")), ("nudity", JNull)];
    assert c[1].1.JNull?;
  }

  // ---------------------------------------------------------------------------
  // Only two levels are read

  /** The inner entry as the walk sees it: a compared number stays, anything else
      becomes null, which the inner loop passes over. */
  function PruneInnerEntry(e: (string, JValue)): (string, JValue)
  {
    (e.0, if e.1.JNum? && !IsMetadataKey(e.0) then e.1 else JNull)
  }

  /** A top-level value with every part the walk ignores erased. */
  function PruneChild(v: JValue): JValue
  {
    match v
    case JObj(fs) => JObj(seq(|fs|, i requires 0 <= i < |fs| => PruneInnerEntry(fs[i])))
    case JArr(xs) => JArr(seq(|xs|, i requires 0 <= i < |xs| => if xs[i].JNum? then xs[i] else JNull))
    case _ => v
  }

  /** The reply with everything below the second level, every non-number inner
      value and every inner metadata number erased. */
  function Prune(response: JValue): JValue
  {
    match response
    case JObj(fs) => JObj(seq(|fs|, i requires 0 <= i < |fs| => (fs[i].0, PruneChild(fs[i].1))))
    case JArr(xs) => JArr(seq(|xs|, i requires 0 <= i < |xs| => PruneChild(xs[i])))
    case _ => response
  }

  lemma IndexKeyNotMetadata(i: nat)
    ensures !IsMetadataKey(IndexKey(i))
  {
    var k := IndexKey(i);
    assert '0' <= k[0] <= '9';
  }

  lemma PruneChildKeepsInnerWalk(flag: bool, v: JValue)
    ensures InnerWalk(flag, Entries(PruneChild(v))) == InnerWalk(flag, Entries(v))
  {
    var es := Entries(v);
    var ps := Entries(PruneChild(v));
    if v.JObj? || v.JArr? {
      assert |ps| == |es|;
      forall j | 0 <= j < |es|
        ensures InnerHit(ps[j]) <==> InnerHit(es[j])
      {
        if v.JArr? {
          IndexKeyNotMetadata(j);
        }
      }
      if AnyInnerHit(es) {
        var j :| 0 <= j < |es| && InnerHit(es[j]);
        assert InnerHit(ps[j]);
      }
      if AnyInnerHit(ps) {
        var j :| 0 <= j < |ps| && InnerHit(ps[j]);
        assert InnerHit(es[j]);
      }
    }
  }

  lemma {:induction false} TopWalkPrune(flag: bool, fields: seq<(string, JValue)>, pruned: seq<(string, JValue)>)
    requires |pruned| == |fields|
    requires forall i :: 0 <= i < |fields| ==> pruned[i] == (fields[i].0, PruneChild(fields[i].1))
    ensures TopWalk(flag, pruned) == TopWalk(flag, fields)
    decreases |fields|
  {
    if |fields| > 0 {
      var v := fields[0].1;
      var f := match v
        case JNum(x) => Compare(flag, x)
        case JObj(_) => InnerWalk(flag, Entries(v))
        case JArr(_) => InnerWalk(flag, Entries(v))
        case _ => flag;
      PruneChildKeepsInnerWalk(flag, v);
      TopWalkPrune(f, fields[1..], pruned[1..]);
    }
  }

  /** Values nested deeper than two levels, non-number inner values and inner
      metadata numbers never affect the walk: erasing them changes nothing, not
      even where an aborted walk left the flag. */
  lemma PruneKeepsVerdict(flag: bool, response: JValue)
    ensures Analyse(flag, Prune(response)) == Analyse(flag, response)
  {
    if !response.JNull? {
      var es := Entries(response);
      var ps := Entries(Prune(response));
      assert |ps| == |es|;
      forall i | 0 <= i < |es|
        ensures ps[i] == (es[i].0, PruneChild(es[i].1))
      {
      }
      TopWalkPrune(flag, es, ps);
    }
  }

  // ---------------------------------------------------------------------------
  // The shared flag under concurrent calls

  /** A verdict as a handler sees it: `None` when the call resolved with no value. */
  function VerdictOf(o: Outcome): Option<bool>
  {
    match o
    case Failed => None
    case Inappropriate(_) => Some(true)
    case Appropriate => Some(false)
  }

  /** One reply folded into the shared flag without a reset: a failed request or
      an aborted walk leaves no value, a flagged reply always reads back true, and
      the flag never drops. */
  function FoldReply(flag: bool, reply: Option<JValue>): (w: Walk)
    ensures w.Aborted? <==> Classify(reply).Failed?
    ensures Classify(reply).Inappropriate? ==> w == Completed(true)
    ensures flag ==> w.flag
    ensures reply.None? ==> w == Aborted(flag)
    ensures w.Completed? ==> reply.Some? && (w.flag <==> flag || Flagged(reply.value))
  {
    match reply
    case None => Aborted(flag)
    case Some(d) => Analyse(flag, d)
  }

  /** As written, for the attachments of one message: each handler calls
      `checkImage`, which resets the flag and then suspends on the request before
      any reply is back, so every reset happens first. The replies are then folded
      in, in the order they arrive, into the one flag, and each call reads back
      whatever that flag holds. */
  function InterleavedVerdicts(flag: bool, replies: seq<Option<JValue>>): (vs: seq<Option<bool>>)
    ensures |vs| == |replies|
    ensures forall k :: 0 <= k < |replies| && VerdictOf(Classify(replies[k])) == Some(true) ==> vs[k] == Some(true)
    ensures forall k :: 0 <= k < |replies| ==> (vs[k].None? <==> Classify(replies[k]).Failed?)
    decreases |replies|
  {
    if |replies| == 0 then []
    else
      var w := FoldReply(flag, replies[0]);
      [if w.Aborted? then None else Some(w.flag)] + InterleavedVerdicts(w.flag, replies[1..])
  }

  /** Two valid attachments: the first reply (arriving first) is flagged, the second
      is not, yet both calls read back true, so the harmless image is reported. */
  lemma InterleavedVerdictsLeak()
    ensures !Flagged(JObj([("nudity", JNum(0.1))]))
    ensures InterleavedVerdicts(false, [Some(JObj([("nudity", JNum(0.9))])), Some(JObj([("nudity", JNum(0.1))]))])
            == [Some(true), Some(true)]
  {
    var hot := JObj([("nudity", JNum(0.9))]);
    var cold := JObj([("nudity", JNum(0.1))]);
    assert Analyse(false, hot) == Completed(true);
    assert Analyse(true, cold) == Completed(true);
    var rs := [Some(hot), Some(cold)];
    assert rs[1..] == [Some(cold)];
    assert rs[1..][1..] == [];
  }

  /** Corrected: every call resets the flag immediately before folding its own
      reply in, so each verdict is the verdict of that reply alone. */
  function SequentialVerdicts(replies: seq<Option<JValue>>): (vs: seq<Option<bool>>)
    ensures |vs| == |replies|
    ensures forall k :: 0 <= k < |replies| ==> vs[k] == VerdictOf(Classify(replies[k]))
  {
    seq(|replies|, k requires 0 <= k < |replies| =>
      var c := CheckImage(false, replies[k]);
      if c.result.None? then None else Some(c.result.value.inappropriateImage))
  }
}
