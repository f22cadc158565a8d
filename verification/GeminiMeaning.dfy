/**
 * What a folded Gemini recording keeps of its lines: the newest metadata, and what a patch does to a message's
 * tool calls (packages/core/gemini-adapter.ts, `foldGeminiRecording`).
 */
module GeminiMeaning {
  import opened Wrappers
  import opened Text
  import opened Gemini

  // ── Metadata ─────────────────────────────────────────────────────

  /** The metadata a line carries: that of a `$set` line, or of a session line, and of no other. */
  function Carried(parse: Parser, line: string): map<string, Value> {
    if IsBlank(line) || parse(line).None? then map[]
    else
      var r := parse(line).value;
      if r.rewindTo.Some? || r.patch.Some? || r.message.Some? then map[]
      else if r.assign.Some? then r.assign.value.meta
      else if r.session.Some? then r.session.value.meta
      else map[]
  }

  /** Line `k` is the last to say anything of `key`. */
  ghost predicate LastToSay(parse: Parser, lines: seq<string>, key: string, k: nat) {
    && k < |lines| && key in Carried(parse, lines[k])
    && forall j :: k < j < |lines| ==> key !in Carried(parse, lines[j])
  }

  lemma LastToSayOneMore(parse: Parser, lines: seq<string>, key: string, k: nat)
    requires lines != [] && key !in Carried(parse, lines[|lines| - 1])
    ensures LastToSay(parse, lines, key, k) <==> LastToSay(parse, lines[..|lines| - 1], key, k)
  {
  }

  lemma TakeMeta(parse: Parser, s: State, line: string)
    ensures Take(parse, s, line).meta == s.meta + Carried(parse, line)
  {
  }

  /** A recording has a property exactly when some line gives it one, and then the newest. */
  lemma {:induction false} MetaIsNewest(parse: Parser, lines: seq<string>, key: string)
    ensures key in Fold(parse, lines).meta <==> exists k: nat :: LastToSay(parse, lines, key, k)
    ensures forall k: nat :: LastToSay(parse, lines, key, k) ==> Fold(parse, lines).meta[key] == Carried(parse, lines[k])[key]
  {
    if lines != [] {
      var n := |lines| - 1;
      MetaIsNewest(parse, lines[..n], key);
      TakeMeta(parse, Fold(parse, lines[..n]), lines[n]);
      if key in Carried(parse, lines[n]) {
        assert LastToSay(parse, lines, key, n);
      } else {
        forall k: nat ensures LastToSay(parse, lines, key, k) <==> LastToSay(parse, lines[..n], key, k) {
          LastToSayOneMore(parse, lines, key, k);
        }
      }
    }
  }

  /** A recording is kept exactly when the newest `sessionId` any line gives is text. */
  lemma KeptIff(parse: Parser, lines: seq<string>)
    ensures Conclude(Fold(parse, lines)).Some?
            <==> exists k: nat :: LastToSay(parse, lines, "sessionId", k) && Carried(parse, lines[k])["sessionId"].Text?
  {
    MetaIsNewest(parse, lines, "sessionId");
  }

  // ── Patches ──────────────────────────────────────────────────────

  /** Update `k` is the last that brings the id a result. */
  ghost predicate LastResult(us: seq<CallUpdate>, id: string, k: nat) {
    && k < |us| && us[k].id == id && us[k].result.Some?
    && forall j :: k < j < |us| ==> us[j].id != id || us[j].result.None?
  }

  ghost predicate FirstOfItsId(calls: seq<Call>, i: nat) {
    i < |calls| && forall j :: 0 <= j < i ==> calls[j].id != calls[i].id
  }

  /** Only results change, and only that of the first call of an id: to the last result an update brings it. */
  ghost predicate CallMeans(was: seq<Call>, now: seq<Call>, us: seq<CallUpdate>, i: nat) {
    && i < |was| && |now| == |was| && now[i].id == was[i].id && now[i].rest == was[i].rest
    && (FirstOfItsId(was, i) ==> forall k: nat :: LastResult(us, was[i].id, k) ==> now[i].result == us[k].result)
    && (!FirstOfItsId(was, i) || (forall k: nat :: !LastResult(us, was[i].id, k)) ==> now[i].result == was[i].result)
  }

  lemma LastResultOneMore(us: seq<CallUpdate>, id: string, k: nat)
    requires us != []
    ensures var n := |us| - 1;
            LastResult(us, id, k) <==> if us[n].id == id && us[n].result.Some? then k == n else LastResult(us[..n], id, k)
  {
  }

  lemma {:induction false} PatchCallsMean(calls: seq<Call>, us: seq<CallUpdate>)
    ensures |PatchCalls(calls, us)| == |calls|
    ensures forall i :: 0 <= i < |calls| ==> CallMeans(calls, PatchCalls(calls, us), us, i)
  {
    if us != [] {
      var n := |us| - 1;
      var u, before := us[n], PatchCalls(calls, us[..n]);
      PatchCallsMean(calls, us[..n]);
      forall i | 0 <= i < |calls| ensures before[i].id == calls[i].id && CallMeans(calls, PatchCall(before, u), us, i) {
        assert CallMeans(calls, before, us[..n], i);
        SameIds(calls, before, us[..n]);
        OneMoreUpdate(calls, before, us, i);
      }
    }
  }

  lemma SameIds(calls: seq<Call>, before: seq<Call>, us: seq<CallUpdate>)
    requires |before| == |calls| && forall i :: 0 <= i < |calls| ==> CallMeans(calls, before, us, i)
    ensures forall i :: 0 <= i < |calls| ==> before[i].id == calls[i].id
  {
    forall i | 0 <= i < |calls| ensures before[i].id == calls[i].id {
      assert CallMeans(calls, before, us, i);
    }
  }

  lemma {:induction false} FirstCallIs(calls: seq<Call>, id: string, k: nat)
    requires k <= |calls|
    ensures forall j :: k <= j < FirstCall(calls, id, k) ==> calls[j].id != id
    decreases |calls| - k
  {
    if k < |calls| && calls[k].id != id { FirstCallIs(calls, id, k + 1); }
  }

  lemma OneMoreUpdate(calls: seq<Call>, before: seq<Call>, us: seq<CallUpdate>, i: nat)
    requires us != [] && |before| == |calls| && forall j :: 0 <= j < |calls| ==> before[j].id == calls[j].id
    requires i < |calls| && CallMeans(calls, before, us[..|us| - 1], i)
    ensures CallMeans(calls, PatchCall(before, us[|us| - 1]), us, i)
  {
    var u := us[|us| - 1];
    FirstCallIs(before, u.id, 0);
    forall k: nat
      ensures LastResult(us, calls[i].id, k)
              <==> if u.id == calls[i].id && u.result.Some? then k == |us| - 1 else LastResult(us[..|us| - 1], calls[i].id, k)
    {
      LastResultOneMore(us, calls[i].id, k);
    }
    var init := us[..|us| - 1];
    forall k: nat | LastResult(init, calls[i].id, k) && !(u.id == calls[i].id && u.result.Some?)
      ensures LastResult(us, calls[i].id, k)
    {
      LastResultOneMore(us, calls[i].id, k);
    }
    var f, now := FirstCall(before, u.id, 0), PatchCall(before, u);
    assert f == i ==> FirstOfItsId(calls, i) && u.id == calls[i].id by {
      if f == i { forall j | 0 <= j < i ensures calls[j].id != calls[i].id { assert before[j].id != u.id; } }
    }
    assert FirstOfItsId(calls, i) && u.id == calls[i].id ==> f == i;
    if f == i && u.result.Some? {
      assert LastResult(us, calls[i].id, |us| - 1);
      assert now[i].result == u.result;
    } else {
      assert now[i] == before[i];
      if FirstOfItsId(calls, i) && forall k: nat :: !LastResult(us, calls[i].id, k) {
        assert forall k: nat :: !LastResult(init, calls[i].id, k);
      }
    }
  }

  /** What an update makes of a message: its content if one is given, its calls' results, and nothing else. */
  lemma PatchedMeans(m: Message, u: Update)
    ensures var now := PatchedMessage(m, u);
            && now.id == m.id && now.rest == m.rest
            && now.content == (match u.content case Some(c) => c case None => m.content)
            && (u.calls.None? || m.calls.None? ==> now.calls == m.calls)
            && (u.calls.Some? && m.calls.Some? ==>
                  && now.calls.Some? && |now.calls.value| == |m.calls.value|
                  && forall i :: 0 <= i < |m.calls.value| ==> CallMeans(m.calls.value, now.calls.value, u.calls.value, i))
  {
    if u.calls.Some? && m.calls.Some? { PatchCallsMean(m.calls.value, u.calls.value); }
  }

  // ── Messages set together ────────────────────────────────────────

  /** Entry `k` is the newest copy of the id in a list. */
  ghost predicate NewestCopy(more: seq<Option<Message>>, id: string, k: nat) {
    && k < |more| && more[k].Some? && more[k].value.id == id
    && forall j :: k < j < |more| ==> more[j].None? || more[j].value.id != id
  }

  lemma NewestOneMore(more: seq<Option<Message>>, id: string, k: nat)
    requires more != []
    ensures var n := |more| - 1;
            NewestCopy(more, id, k)
            <==> if more[n].Some? && more[n].value.id == id then k == n else NewestCopy(more[..n], id, k)
  {
  }

  /** What a conversation holds of an id, if anything. */
  function HeldOf(ms: seq<Message>, id: string): Option<Message> {
    if Has(ms, id) then Some(ms[IndexOf(ms, id)]) else None
  }

  lemma PutHolds(ms: seq<Message>, m: Message, id: string)
    ensures HeldOf(Put(ms, m), id) == if id == m.id then Some(m) else HeldOf(ms, id)
  {
    var i, out := IndexOf(ms, m.id), Put(ms, m);
    var j, k := IndexOf(out, id), IndexOf(ms, id);
    assert forall x :: 0 <= x < |ms| ==> out[x].id == ms[x].id;
    if k < |ms| {
      assert out[k].id == id && j == k;
    } else if id == m.id {
      assert out[|ms|] == m && j == |ms|;
    } else {
      assert j == |out|;
    }
  }

  /** Of every id a list of messages names, the newest copy is held after; of every other, what was. */
  lemma {:induction false} SetTogether(ms: seq<Message>, more: seq<Option<Message>>, id: string)
    ensures forall k: nat :: NewestCopy(more, id, k) ==> HeldOf(PutAll(ms, more), id) == more[k]
    ensures (forall k: nat :: !NewestCopy(more, id, k)) ==> HeldOf(PutAll(ms, more), id) == HeldOf(ms, id)
  {
    if more != [] {
      var n := |more| - 1;
      SetTogether(ms, more[..n], id);
      if more[n].Some? { PutHolds(PutAll(ms, more[..n]), more[n].value, id); }
      forall k: nat
        ensures NewestCopy(more, id, k)
                <==> if more[n].Some? && more[n].value.id == id then k == n else NewestCopy(more[..n], id, k)
      {
        NewestOneMore(more, id, k);
      }
      if more[n].Some? && more[n].value.id == id { assert NewestCopy(more, id, n); }
    }
  }
}
