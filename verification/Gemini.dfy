/**
 * Folding a Gemini CLI recording, line by line, into a conversation
 * (packages/core/gemini-adapter.ts, the JSONL part of `foldGeminiRecording`).
 */
module Gemini {
  import opened Wrappers
  import opened Seqs
  import opened Text

  /** A JSON value as far as the fold looks: text, or anything else. */
  datatype Value = Text(s: string) | Other(json: string)

  datatype Call = Call(id: string, result: Option<Value>, rest: Value)
  datatype Message = Message(id: string, content: Value, calls: Option<seq<Call>>, rest: Value)

  datatype CallUpdate = CallUpdate(id: string, result: Option<Value>)
  datatype Update = Update(id: Option<string>, content: Option<Value>, calls: Option<seq<CallUpdate>>)
  datatype Patch = Patch(self: Update, updates: seq<Update>, removeIds: seq<string>, orderIds: Option<seq<string>>)

  /** A `$set` or session line: metadata, and the messages it carries, an entry that is no message being none. */
  datatype Header = Header(meta: map<string, Value>, messages: Option<seq<Option<Message>>>)

  /** A parsed line: which of the five shapes it has. Several may hold at once; the fold takes the first. */
  datatype Record = Record(rewindTo: Option<string>, patch: Option<Patch>, message: Option<Message>,
                           assign: Option<Header>, session: Option<Header>)

  /** The record on a line; none for a line that is not a JSON object. */
  type Parser = string -> Option<Record>

  // ── The insertion-ordered map ────────────────────────────────────

  function IndexOf(ms: seq<Message>, id: string): (i: nat)
    ensures i <= |ms| && (i < |ms| ==> ms[i].id == id) && forall j :: 0 <= j < i ==> ms[j].id != id
  {
    if ms == [] then 0
    else
      var i := IndexOf(ms[..|ms| - 1], id);
      if i < |ms| - 1 || ms[|ms| - 1].id == id then i else |ms|
  }

  predicate Has(ms: seq<Message>, id: string) {
    IndexOf(ms, id) < |ms|
  }

  /** A new id goes to the end; a known one keeps its place. */
  function Put(ms: seq<Message>, m: Message): seq<Message> {
    var i := IndexOf(ms, m.id);
    if i < |ms| then ms[i := m] else ms + [m]
  }

  function PutAll(ms: seq<Message>, more: seq<Option<Message>>): seq<Message> {
    if more == [] then ms
    else
      var put, last := PutAll(ms, more[..|more| - 1]), more[|more| - 1];
      if last.Some? then Put(put, last.value) else put
  }

  function Delete(ms: seq<Message>, id: string): seq<Message> {
    if ms == [] then []
    else
      var rest := Delete(ms[..|ms| - 1], id);
      if ms[|ms| - 1].id == id then rest else rest + [ms[|ms| - 1]]
  }

  function DeleteAll(ms: seq<Message>, ids: seq<string>): seq<Message> {
    if ids == [] then ms else Delete(DeleteAll(ms, ids[..|ids| - 1]), ids[|ids| - 1])
  }

  /** Everything before the id; nothing when the id is not there. */
  function Rewound(ms: seq<Message>, id: string): seq<Message> {
    if Has(ms, id) then ms[..IndexOf(ms, id)] else []
  }

  function FirstCall(calls: seq<Call>, id: string, k: nat): (i: nat)
    requires k <= |calls|
    ensures k <= i <= |calls| && (i < |calls| ==> calls[i].id == id)
    decreases |calls| - k
  {
    if k == |calls| || calls[k].id == id then k else FirstCall(calls, id, k + 1)
  }

  function PatchCall(calls: seq<Call>, u: CallUpdate): seq<Call> {
    var i := FirstCall(calls, u.id, 0);
    if i < |calls| && u.result.Some? then calls[i := calls[i].(result := u.result)] else calls
  }

  function PatchCalls(calls: seq<Call>, us: seq<CallUpdate>): seq<Call> {
    if us == [] then calls else PatchCall(PatchCalls(calls, us[..|us| - 1]), us[|us| - 1])
  }

  function PatchedMessage(m: Message, u: Update): (m': Message)
    ensures m'.id == m.id && m'.rest == m.rest
  {
    m.(content := if u.content.Some? then u.content.value else m.content,
       calls := if u.calls.Some? && m.calls.Some? then Some(PatchCalls(m.calls.value, u.calls.value)) else m.calls)
  }

  function PatchOne(ms: seq<Message>, u: Update): seq<Message> {
    if u.id.Some? && Has(ms, u.id.value) then
      var i := IndexOf(ms, u.id.value);
      ms[i := PatchedMessage(ms[i], u)]
    else ms
  }

  function PatchEach(ms: seq<Message>, us: seq<Update>): seq<Message> {
    if us == [] then ms else PatchOne(PatchEach(ms, us[..|us| - 1]), us[|us| - 1])
  }

  function Unlisted(ms: seq<Message>, ids: seq<string>): seq<Message> {
    if ms == [] then []
    else
      var rest := Unlisted(ms[..|ms| - 1], ids);
      if ms[|ms| - 1].id in ids then rest else rest + [ms[|ms| - 1]]
  }

  /** The listed messages, each where it is first mentioned. */
  function Listed(ms: seq<Message>, ids: seq<string>): seq<Message> {
    if ids == [] then []
    else
      var rest, id := Listed(ms, ids[..|ids| - 1]), ids[|ids| - 1];
      if Has(ms, id) && !Has(rest, id) then rest + [ms[IndexOf(ms, id)]] else rest
  }

  function Reordered(ms: seq<Message>, ids: seq<string>): seq<Message> {
    Unlisted(ms, ids) + Listed(ms, ids)
  }

  function Patched(ms: seq<Message>, p: Patch): seq<Message> {
    var removed := DeleteAll(PatchEach(PatchOne(ms, p.self), p.updates), p.removeIds);
    if p.orderIds.Some? then Reordered(removed, p.orderIds.value) else removed
  }

  // ── The fold ─────────────────────────────────────────────────────

  datatype State = State(messages: seq<Message>, meta: map<string, Value>)

  const START := State([], map[])

  function Apply(s: State, r: Record): State {
    if r.rewindTo.Some? then s.(messages := Rewound(s.messages, r.rewindTo.value))
    else if r.patch.Some? then s.(messages := Patched(s.messages, r.patch.value))
    else if r.message.Some? then s.(messages := Put(s.messages, r.message.value))
    else if r.assign.Some? then
      var h := r.assign.value;
      State(if h.messages.Some? then PutAll([], h.messages.value) else s.messages, s.meta + h.meta)
    else if r.session.Some? then
      var h := r.session.value;
      State(if h.messages.Some? then PutAll(s.messages, h.messages.value) else s.messages, s.meta + h.meta)
    else s
  }

  /** A line's effect: a blank line and one that does not parse have none. */
  function Take(parse: Parser, s: State, line: string): State {
    if IsBlank(line) || parse(line).None? then s else Apply(s, parse(line).value)
  }

  function Fold(parse: Parser, lines: seq<string>): State {
    if lines == [] then START else Take(parse, Fold(parse, lines[..|lines| - 1]), lines[|lines| - 1])
  }

  datatype Conversation = Conversation(meta: map<string, Value>, messages: seq<Message>)

  function Conclude(s: State): Option<Conversation> {
    if "sessionId" in s.meta && s.meta["sessionId"].Text? then Some(Conversation(s.meta, s.messages)) else None
  }

  ghost predicate UniqueIds(ms: seq<Message>) {
    forall i, j :: 0 <= i < j < |ms| ==> ms[i].id != ms[j].id
  }

  /** What a rewind to the id at index `at` has left after looking at `k` ids. */
  function RewindUpTo(ms: seq<Message>, at: nat, k: nat): seq<Message>
    requires k <= |ms|
  {
    if at < k then ms[..at] + ms[k..] else ms
  }

  method UpdateCalls(calls0: seq<Call>, us: seq<CallUpdate>) returns (calls: seq<Call>)
    ensures calls == PatchCalls(calls0, us)
  {
    calls := calls0;
    for k := 0 to |us|
      invariant calls == PatchCalls(calls0, us[..k])
    {
      var t := FirstCall(calls, us[k].id, 0);
      assert us[..k + 1][..k] == us[..k];
      if t < |calls| && us[k].result.Some? {
        calls := calls[t := calls[t].(result := us[k].result)];
      }
    }
    TakeAll(us);
  }

  class Recording {
    var messages: seq<Message>
    var meta: map<string, Value>

    constructor ()
      ensures Now() == START
    {
      messages, meta := [], map[];
    }

    ghost function Now(): State
      reads this
    {
      State(messages, meta)
    }

    method Rewind(id: string)
      requires UniqueIds(messages)
      modifies this`messages
      ensures messages == Rewound(old(messages), id)
    {
      ghost var was, at := messages, IndexOf(messages, id);
      var keys := Ids(messages);
      var found := false;
      for k := 0 to |keys|
        invariant found == (at < k)
        invariant messages == RewindUpTo(was, at, k)
      {
        if keys[k] == id { found := true; }
        RewindNext(was, id, k);
        if found { messages := Delete(messages, keys[k]); }
      }
      if !found { messages := []; }
    }

    method ApplyUpdate(u: Update)
      modifies this`messages
      ensures messages == PatchOne(old(messages), u)
    {
      if u.id.Some? && Has(messages, u.id.value) {
        var i := IndexOf(messages, u.id.value);
        var m := messages[i];
        if u.content.Some? { m := m.(content := u.content.value); }
        if u.calls.Some? && m.calls.Some? {
          var calls := UpdateCalls(m.calls.value, u.calls.value);
          m := m.(calls := Some(calls));
        }
        messages := messages[i := m];
      }
    }

    method ApplyUpdates(us: seq<Update>)
      modifies this`messages
      ensures messages == PatchEach(old(messages), us)
    {
      for k := 0 to |us|
        invariant messages == PatchEach(old(messages), us[..k])
      {
        ApplyUpdate(us[k]);
        assert us[..k + 1][..k] == us[..k];
      }
      TakeAll(us);
    }

    method Remove(ids: seq<string>)
      modifies this`messages
      ensures messages == DeleteAll(old(messages), ids)
    {
      for k := 0 to |ids|
        invariant messages == DeleteAll(old(messages), ids[..k])
      {
        messages := Delete(messages, ids[k]);
        assert ids[..k + 1][..k] == ids[..k];
      }
      TakeAll(ids);
    }

    /** The unlisted messages stay first; the listed ones are set again in the order of the list. */
    method Reorder(ids: seq<string>)
      requires UniqueIds(messages)
      modifies this`messages
      ensures messages == Reordered(old(messages), ids)
    {
      var was := messages;
      var first := Unlisted(was, ids);
      messages := first;
      for k := 0 to |ids|
        invariant messages == first + Listed(was, ids[..k])
      {
        assert ids[..k + 1][..k] == ids[..k];
        if Has(was, ids[k]) {
          PutListed(was, ids, k);
          messages := Put(messages, was[IndexOf(was, ids[k])]);
        }
      }
      TakeAll(ids);
    }

    method ApplyPatch(p: Patch)
      requires UniqueIds(messages)
      modifies this`messages
      ensures messages == Patched(old(messages), p)
    {
      PatchedIsUnique(messages, p);
      ApplyUpdate(p.self);
      ApplyUpdates(p.updates);
      Remove(p.removeIds);
      if p.orderIds.Some? { Reorder(p.orderIds.value); }
    }

    method AddMessages(more: seq<Option<Message>>)
      modifies this`messages
      ensures messages == PutAll(old(messages), more)
    {
      for k := 0 to |more|
        invariant messages == PutAll(old(messages), more[..k])
      {
        if more[k].Some? { messages := Put(messages, more[k].value); }
        assert more[..k + 1][..k] == more[..k];
      }
      TakeAll(more);
    }

    method Feed(r: Record)
      requires UniqueIds(messages)
      modifies this
      ensures Now() == Apply(old(Now()), r)
    {
      if r.rewindTo.Some? {
        Rewind(r.rewindTo.value);
      } else if r.patch.Some? {
        ApplyPatch(r.patch.value);
      } else if r.message.Some? {
        messages := Put(messages, r.message.value);
      } else if r.assign.Some? {
        if r.assign.value.messages.Some? {
          messages := [];
          AddMessages(r.assign.value.messages.value);
        }
        meta := meta + r.assign.value.meta;
      } else if r.session.Some? {
        meta := meta + r.session.value.meta;
        if r.session.value.messages.Some? { AddMessages(r.session.value.messages.value); }
      }
    }
  }

  method FoldRecording(parse: Parser, lines: seq<string>) returns (r: Option<Conversation>)
    ensures r == Conclude(Fold(parse, lines))
    ensures r.Some? ==> UniqueIds(r.value.messages)
  {
    var rec := new Recording();
    for k := 0 to |lines|
      invariant fresh(rec) && rec.Now() == Fold(parse, lines[..k])
    {
      FoldIsUnique(parse, lines[..k]);
      assert lines[..k + 1][..k] == lines[..k];
      if !IsBlank(lines[k]) {
        var record := parse(lines[k]);
        if record.Some? { rec.Feed(record.value); }
      }
    }
    TakeAll(lines);
    FoldIsUnique(parse, lines);
    r := if "sessionId" in rec.meta && rec.meta["sessionId"].Text? then Some(Conversation(rec.meta, rec.messages)) else None;
  }

  // ── Ids ──────────────────────────────────────────────────────────

  function Ids(ms: seq<Message>): (ids: seq<string>)
    ensures |ids| == |ms| && forall i :: 0 <= i < |ms| ==> ids[i] == ms[i].id
  {
    seq(|ms|, i requires 0 <= i < |ms| => ms[i].id)
  }

  lemma PutIds(ms: seq<Message>, m: Message)
    requires UniqueIds(ms)
    ensures UniqueIds(Put(ms, m))
    ensures Ids(Put(ms, m)) == if Has(ms, m.id) then Ids(ms) else Ids(ms) + [m.id]
  {
  }

  lemma {:induction false} PutAllIsUnique(ms: seq<Message>, more: seq<Option<Message>>)
    requires UniqueIds(ms)
    ensures UniqueIds(PutAll(ms, more))
  {
    if more != [] {
      PutAllIsUnique(ms, more[..|more| - 1]);
      if more[|more| - 1].Some? { PutIds(PutAll(ms, more[..|more| - 1]), more[|more| - 1].value); }
    }
  }

  lemma {:induction false} DeleteKeeps(ms: seq<Message>, id: string)
    requires UniqueIds(ms)
    ensures UniqueIds(Delete(ms, id))
    ensures forall m :: m in Delete(ms, id) <==> m in ms && m.id != id
  {
    if ms != [] {
      var init := ms[..|ms| - 1];
      DeleteKeeps(init, id);
      assert ms == init + [ms[|ms| - 1]];
      forall m | m in init ensures m.id != ms[|ms| - 1].id {
        var i :| 0 <= i < |init| && init[i] == m;
        assert ms[i].id != ms[|ms| - 1].id;
      }
    }
  }

  lemma {:induction false} DeleteAllIsUnique(ms: seq<Message>, ids: seq<string>)
    requires UniqueIds(ms)
    ensures UniqueIds(DeleteAll(ms, ids))
  {
    if ids != [] {
      DeleteAllIsUnique(ms, ids[..|ids| - 1]);
      DeleteKeeps(DeleteAll(ms, ids[..|ids| - 1]), ids[|ids| - 1]);
    }
  }

  lemma {:induction false} DeleteAbsent(ms: seq<Message>, id: string)
    requires forall i :: 0 <= i < |ms| ==> ms[i].id != id
    ensures Delete(ms, id) == ms
  {
    if ms != [] { DeleteAbsent(ms[..|ms| - 1], id); }
  }

  lemma {:induction false} DeleteAppend(xs: seq<Message>, ys: seq<Message>, id: string)
    ensures Delete(xs + ys, id) == Delete(xs, id) + Delete(ys, id)
  {
    if ys == [] {
      assert xs + ys == xs;
    } else {
      DeleteAppend(xs, ys[..|ys| - 1], id);
      assert (xs + ys)[..|xs + ys| - 1] == xs + ys[..|ys| - 1];
    }
  }

  lemma DeleteHead(ms: seq<Message>, k: nat)
    requires UniqueIds(ms) && k < |ms|
    ensures Delete(ms[k..], ms[k].id) == ms[k + 1..]
  {
    assert ms[k..] == [ms[k]] + ms[k + 1..];
    DeleteAppend([ms[k]], ms[k + 1..], ms[k].id);
    DeleteAbsent(ms[k + 1..], ms[k].id);
    assert Delete([ms[k]], ms[k].id) == [];
  }

  lemma RewindNext(ms: seq<Message>, id: string, k: nat)
    requires UniqueIds(ms) && k < |ms|
    ensures var at := IndexOf(ms, id);
            && (at <= k ==> Delete(RewindUpTo(ms, at, k), ms[k].id) == RewindUpTo(ms, at, k + 1))
            && (at > k ==> ms[k].id != id)
            && (ms[k].id == id ==> at == k)
  {
    var at := IndexOf(ms, id);
    if at <= k {
      DeleteAppend(ms[..at], ms[k..], ms[k].id);
      DeleteAbsent(ms[..at], ms[k].id);
      DeleteHead(ms, k);
      assert at == k ==> ms[..at] + ms[k..] == ms;
    }
  }

  /** A patch moves no message and adds none. */
  lemma PatchOneKeepsIds(ms: seq<Message>, u: Update)
    ensures Ids(PatchOne(ms, u)) == Ids(ms)
  {
  }

  lemma {:induction false} PatchKeepsIds(ms: seq<Message>, us: seq<Update>)
    ensures Ids(PatchEach(ms, us)) == Ids(ms)
  {
    if us != [] {
      PatchKeepsIds(ms, us[..|us| - 1]);
      PatchOneKeepsIds(PatchEach(ms, us[..|us| - 1]), us[|us| - 1]);
    }
  }

  lemma SameIdsUnique(xs: seq<Message>, ys: seq<Message>)
    requires Ids(xs) == Ids(ys) && UniqueIds(xs)
    ensures UniqueIds(ys)
  {
    forall i, j | 0 <= i < j < |ys| ensures ys[i].id != ys[j].id {
      assert Ids(xs)[i] != Ids(xs)[j];
    }
  }

  // ── Reordering permutes ──────────────────────────────────────────

  lemma {:induction false} UnlistedKeeps(ms: seq<Message>, ids: seq<string>)
    requires UniqueIds(ms)
    ensures UniqueIds(Unlisted(ms, ids))
    ensures forall m :: m in Unlisted(ms, ids) <==> m in ms && m.id !in ids
  {
    if ms != [] {
      var init := ms[..|ms| - 1];
      UnlistedKeeps(init, ids);
      assert ms == init + [ms[|ms| - 1]];
      forall m | m in init ensures m.id != ms[|ms| - 1].id {
        var i :| 0 <= i < |init| && init[i] == m;
        assert ms[i].id != ms[|ms| - 1].id;
      }
    }
  }

  lemma HasIsMember(ms: seq<Message>, id: string)
    ensures Has(ms, id) <==> exists m :: m in ms && m.id == id
  {
  }

  lemma UniqueMember(ms: seq<Message>, m: Message)
    requires UniqueIds(ms) && m in ms
    ensures Has(ms, m.id) && ms[IndexOf(ms, m.id)] == m
  {
  }

  lemma {:induction false} ListedKeeps(ms: seq<Message>, ids: seq<string>)
    requires UniqueIds(ms)
    ensures UniqueIds(Listed(ms, ids))
    ensures forall m :: m in Listed(ms, ids) <==> m in ms && m.id in ids
  {
    if ids != [] {
      var init, id := ids[..|ids| - 1], ids[|ids| - 1];
      var rest := Listed(ms, init);
      ListedKeeps(ms, init);
      HasIsMember(rest, id);
      HasIsMember(ms, id);
      assert ids == init + [id];
      forall m | m in ms && m.id == id ensures m == ms[IndexOf(ms, id)] {
        UniqueMember(ms, m);
      }
      assert !Has(rest, id) ==> forall i :: 0 <= i < |rest| ==> rest[i].id != id;
    }
  }

  /** Setting a listed message again leaves it where its first mention put it. */
  lemma PutListed(ms: seq<Message>, ids: seq<string>, k: nat)
    requires UniqueIds(ms) && k < |ids| && Has(ms, ids[k])
    ensures Put(Unlisted(ms, ids) + Listed(ms, ids[..k]), ms[IndexOf(ms, ids[k])])
            == Unlisted(ms, ids) + Listed(ms, ids[..k + 1])
  {
    var first, rest, m := Unlisted(ms, ids), Listed(ms, ids[..k]), ms[IndexOf(ms, ids[k])];
    UnlistedKeeps(ms, ids);
    ListedKeeps(ms, ids[..k]);
    assert ids[..k + 1][..k] == ids[..k];
    assert m.id in ids;
    assert forall i :: 0 <= i < |first| ==> first[i].id != m.id by {
      forall i | 0 <= i < |first| ensures first[i].id != m.id { assert first[i] in first; }
    }
    PutAfter(first, rest, m);
    if Has(rest, m.id) {
      var i := IndexOf(rest, m.id);
      assert rest[i] in rest;
      UniqueMember(ms, rest[i]);
      assert rest[i := m] == rest;
    } else {
      assert first + (rest + [m]) == first + rest + [m];
    }
  }

  lemma PutAfter(first: seq<Message>, rest: seq<Message>, m: Message)
    requires forall i :: 0 <= i < |first| ==> first[i].id != m.id
    ensures Put(first + rest, m) == first + Put(rest, m)
  {
    var i, j := IndexOf(first + rest, m.id), IndexOf(rest, m.id);
    if j < |rest| {
      assert (first + rest)[|first| + j].id == m.id;
      assert i == |first| + j;
    } else {
      assert i == |first + rest|;
    }
  }

  lemma {:induction false} CountsOne(ms: seq<Message>, m: Message)
    requires UniqueIds(ms)
    ensures multiset(ms)[m] == if m in ms then 1 else 0
  {
    if ms != [] {
      var init, last := ms[..|ms| - 1], ms[|ms| - 1];
      CountsOne(init, m);
      assert ms == init + [last];
      assert last !in init by {
        forall i | 0 <= i < |init| ensures init[i] != last { assert ms[i].id != ms[|ms| - 1].id; }
      }
    }
  }

  /** However `orderIds` repeats or names strangers, it only permutes: listed messages go last, by first mention. */
  lemma ReorderPermutes(ms: seq<Message>, ids: seq<string>)
    requires UniqueIds(ms)
    ensures UniqueIds(Reordered(ms, ids)) && multiset(Reordered(ms, ids)) == multiset(ms)
  {
    var first, rest, out := Unlisted(ms, ids), Listed(ms, ids), Reordered(ms, ids);
    UnlistedKeeps(ms, ids);
    ListedKeeps(ms, ids);
    forall i, j | 0 <= i < j < |out| ensures out[i].id != out[j].id {
      if i < |first| && j >= |first| {
        assert out[i] in first && out[j] in rest;
      }
    }
    forall m ensures multiset(out)[m] == multiset(ms)[m] {
      CountsOne(out, m);
      CountsOne(ms, m);
    }
  }

  lemma PatchedIsUnique(ms: seq<Message>, p: Patch)
    requires UniqueIds(ms)
    ensures UniqueIds(PatchEach(PatchOne(ms, p.self), p.updates))
    ensures UniqueIds(DeleteAll(PatchEach(PatchOne(ms, p.self), p.updates), p.removeIds))
    ensures UniqueIds(Patched(ms, p))
  {
    var updated := PatchEach(PatchOne(ms, p.self), p.updates);
    PatchOneKeepsIds(ms, p.self);
    PatchKeepsIds(PatchOne(ms, p.self), p.updates);
    SameIdsUnique(ms, updated);
    DeleteAllIsUnique(updated, p.removeIds);
    if p.orderIds.Some? { ReorderPermutes(DeleteAll(updated, p.removeIds), p.orderIds.value); }
  }

  lemma ApplyIsUnique(s: State, r: Record)
    requires UniqueIds(s.messages)
    ensures UniqueIds(Apply(s, r).messages)
  {
    if r.rewindTo.Some? {
    } else if r.patch.Some? {
      PatchedIsUnique(s.messages, r.patch.value);
    } else if r.message.Some? {
      PutIds(s.messages, r.message.value);
    } else if r.assign.Some? {
      if r.assign.value.messages.Some? { PutAllIsUnique([], r.assign.value.messages.value); }
    } else if r.session.Some? && r.session.value.messages.Some? {
      PutAllIsUnique(s.messages, r.session.value.messages.value);
    }
  }

  /** Over any log, no id appears twice. */
  lemma {:induction false} FoldIsUnique(parse: Parser, lines: seq<string>)
    ensures UniqueIds(Fold(parse, lines).messages)
  {
    if lines != [] {
      var s, line := Fold(parse, lines[..|lines| - 1]), lines[|lines| - 1];
      FoldIsUnique(parse, lines[..|lines| - 1]);
      if !IsBlank(line) && parse(line).Some? { ApplyIsUnique(s, parse(line).value); }
    }
  }

  // ── The reference: an order of ids, and the newest copy of each ──

  /** `byId` also remembers ids that were dropped; only those in `order` are in the conversation. */
  datatype Reference = Reference(order: seq<string>, byId: map<string, Message>)

  function Without(order: seq<string>, ids: seq<string>): seq<string> {
    if order == [] then []
    else
      var rest := Without(order[..|order| - 1], ids);
      if order[|order| - 1] in ids then rest else rest + [order[|order| - 1]]
  }

  /** The listed ids that are in the order, each where it is first mentioned. */
  function Mentions(order: seq<string>, ids: seq<string>): seq<string> {
    if ids == [] then []
    else
      var rest, id := Mentions(order, ids[..|ids| - 1]), ids[|ids| - 1];
      if id in order && id !in rest then rest + [id] else rest
  }

  function Until(order: seq<string>, id: string): seq<string> {
    if order == [] || order[0] == id then [] else [order[0]] + Until(order[1..], id)
  }

  function RefPut(r: Reference, m: Message): Reference {
    Reference(if m.id in r.order then r.order else r.order + [m.id], r.byId[m.id := m])
  }

  function RefPutAll(r: Reference, more: seq<Option<Message>>): Reference {
    if more == [] then r
    else
      var put, last := RefPutAll(r, more[..|more| - 1]), more[|more| - 1];
      if last.Some? then RefPut(put, last.value) else put
  }

  function RefUpdate(r: Reference, u: Update): Reference {
    if u.id.Some? && u.id.value in r.order && u.id.value in r.byId
    then r.(byId := r.byId[u.id.value := PatchedMessage(r.byId[u.id.value], u)]) else r
  }

  function RefUpdates(r: Reference, us: seq<Update>): Reference {
    if us == [] then r else RefUpdate(RefUpdates(r, us[..|us| - 1]), us[|us| - 1])
  }

  function RefPatched(r: Reference, p: Patch): Reference {
    var updated := RefUpdates(RefUpdate(r, p.self), p.updates);
    var order := Without(updated.order, p.removeIds);
    updated.(order := if p.orderIds.Some? then Without(order, p.orderIds.value) + Mentions(order, p.orderIds.value) else order)
  }

  function RefApply(r: Reference, rec: Record): Reference {
    if rec.rewindTo.Some? then
      r.(order := if rec.rewindTo.value in r.order then Until(r.order, rec.rewindTo.value) else [])
    else if rec.patch.Some? then RefPatched(r, rec.patch.value)
    else if rec.message.Some? then RefPut(r, rec.message.value)
    else if rec.assign.Some? then
      if rec.assign.value.messages.Some? then RefPutAll(r.(order := []), rec.assign.value.messages.value) else r
    else if rec.session.Some? && rec.session.value.messages.Some? then RefPutAll(r, rec.session.value.messages.value)
    else r
  }

  function RefFold(parse: Parser, lines: seq<string>): Reference {
    if lines == [] then Reference([], map[])
    else
      var r, line := RefFold(parse, lines[..|lines| - 1]), lines[|lines| - 1];
      if IsBlank(line) || parse(line).None? then r else RefApply(r, parse(line).value)
  }

  ghost predicate Refines(ms: seq<Message>, r: Reference) {
    Ids(ms) == r.order && Copies(ms, r.byId)
  }

  ghost predicate Copies(ms: seq<Message>, byId: map<string, Message>) {
    forall m :: m in ms ==> m.id in byId && byId[m.id] == m
  }

  lemma InOrder(ms: seq<Message>, id: string)
    ensures id in Ids(ms) <==> Has(ms, id)
  {
    if Has(ms, id) { assert Ids(ms)[IndexOf(ms, id)] == id; }
  }

  lemma PutRefines(ms: seq<Message>, r: Reference, m: Message)
    requires UniqueIds(ms) && Refines(ms, r)
    ensures Refines(Put(ms, m), RefPut(r, m))
  {
    InOrder(ms, m.id);
    PutIds(ms, m);
    forall x | x in Put(ms, m) ensures x.id in r.byId[m.id := m] && r.byId[m.id := m][x.id] == x {
      PutMembers(ms, m, x);
    }
  }

  lemma PutMembers(ms: seq<Message>, m: Message, x: Message)
    requires UniqueIds(ms) && x in Put(ms, m)
    ensures x == m || (x in ms && x.id != m.id)
  {
    var j :| 0 <= j < |Put(ms, m)| && Put(ms, m)[j] == x;
    var i := IndexOf(ms, m.id);
    if j != i { assert x == ms[j]; }
  }

  lemma {:induction false} PutAllRefines(ms: seq<Message>, r: Reference, more: seq<Option<Message>>)
    requires UniqueIds(ms) && Refines(ms, r)
    ensures Refines(PutAll(ms, more), RefPutAll(r, more))
  {
    if more != [] {
      var init := more[..|more| - 1];
      PutAllRefines(ms, r, init);
      PutAllIsUnique(ms, init);
      if more[|more| - 1].Some? { PutRefines(PutAll(ms, init), RefPutAll(r, init), more[|more| - 1].value); }
    }
  }

  lemma UpdateRefines(ms: seq<Message>, r: Reference, u: Update)
    requires UniqueIds(ms) && Refines(ms, r)
    ensures Refines(PatchOne(ms, u), RefUpdate(r, u))
  {
    if u.id.Some? {
      var id := u.id.value;
      InOrder(ms, id);
      if Has(ms, id) {
        var i := IndexOf(ms, id);
        assert ms[i] in ms;
        PatchOneKeepsIds(ms, u);
        assert RefUpdate(r, u).byId == r.byId[id := PatchedMessage(ms[i], u)];
        assert PatchOne(ms, u) == Put(ms, PatchedMessage(ms[i], u));
        forall x | x in PatchOne(ms, u) ensures x.id in RefUpdate(r, u).byId && RefUpdate(r, u).byId[x.id] == x {
          PutMembers(ms, PatchedMessage(ms[i], u), x);
        }
      }
    }
  }

  lemma {:induction false} UpdatesRefine(ms: seq<Message>, r: Reference, us: seq<Update>)
    requires UniqueIds(ms) && Refines(ms, r)
    ensures UniqueIds(PatchEach(ms, us)) && Refines(PatchEach(ms, us), RefUpdates(r, us))
  {
    PatchKeepsIds(ms, us);
    SameIdsUnique(ms, PatchEach(ms, us));
    if us != [] {
      UpdatesRefine(ms, r, us[..|us| - 1]);
      UpdateRefines(PatchEach(ms, us[..|us| - 1]), RefUpdates(r, us[..|us| - 1]), us[|us| - 1]);
    }
  }

  lemma {:induction false} UnlistedIds(ms: seq<Message>, ids: seq<string>)
    ensures Ids(Unlisted(ms, ids)) == Without(Ids(ms), ids)
  {
    if ms != [] {
      UnlistedIds(ms[..|ms| - 1], ids);
      assert Ids(ms)[..|ms| - 1] == Ids(ms[..|ms| - 1]);
    }
  }

  lemma {:induction false} ListedIds(ms: seq<Message>, ids: seq<string>)
    ensures Ids(Listed(ms, ids)) == Mentions(Ids(ms), ids)
  {
    if ids != [] {
      ListedIds(ms, ids[..|ids| - 1]);
      InOrder(ms, ids[|ids| - 1]);
      InOrder(Listed(ms, ids[..|ids| - 1]), ids[|ids| - 1]);
    }
  }

  lemma {:induction false} DeleteIsUnlisted(ms: seq<Message>, ids: seq<string>)
    ensures DeleteAll(ms, ids) == Unlisted(ms, ids)
    decreases |ids|
  {
    if ids == [] {
      NothingUnlisted(ms);
    } else {
      DeleteIsUnlisted(ms, ids[..|ids| - 1]);
      UnlistMore(ms, ids[..|ids| - 1], ids[|ids| - 1]);
      assert ids == ids[..|ids| - 1] + [ids[|ids| - 1]];
    }
  }

  lemma {:induction false} NothingUnlisted(ms: seq<Message>)
    ensures Unlisted(ms, []) == ms
  {
    if ms != [] { NothingUnlisted(ms[..|ms| - 1]); }
  }

  lemma {:induction false} UnlistMore(ms: seq<Message>, ids: seq<string>, id: string)
    ensures Delete(Unlisted(ms, ids), id) == Unlisted(ms, ids + [id])
  {
    if ms != [] {
      UnlistMore(ms[..|ms| - 1], ids, id);
      var rest := Unlisted(ms[..|ms| - 1], ids);
      if ms[|ms| - 1].id !in ids { assert (rest + [ms[|ms| - 1]])[..|rest|] == rest; }
    }
  }

  lemma DropRefines(ms: seq<Message>, r: Reference, ids: seq<string>)
    requires UniqueIds(ms) && Refines(ms, r)
    ensures UniqueIds(Unlisted(ms, ids)) && Refines(Unlisted(ms, ids), r.(order := Without(r.order, ids)))
  {
    UnlistedIds(ms, ids);
    UnlistedKeeps(ms, ids);
  }

  lemma IdsAppend(xs: seq<Message>, ys: seq<Message>)
    ensures Ids(xs + ys) == Ids(xs) + Ids(ys)
  {
  }

  lemma SubsetCopies(ms: seq<Message>, xs: seq<Message>, ys: seq<Message>, byId: map<string, Message>)
    requires Copies(ms, byId) && (forall m :: m in xs ==> m in ms) && (forall m :: m in ys ==> m in ms)
    ensures Copies(xs + ys, byId)
  {
  }

  lemma ReorderRefines(ms: seq<Message>, r: Reference, ids: seq<string>)
    requires UniqueIds(ms) && Refines(ms, r)
    ensures Refines(Reordered(ms, ids), r.(order := Without(r.order, ids) + Mentions(r.order, ids)))
  {
    var first, rest := Unlisted(ms, ids), Listed(ms, ids);
    UnlistedIds(ms, ids);
    ListedIds(ms, ids);
    IdsAppend(first, rest);
    assert Copies(first + rest, r.byId) by {
      UnlistedKeeps(ms, ids);
      ListedKeeps(ms, ids);
      SubsetCopies(ms, first, rest, r.byId);
    }
  }

  lemma PatchRefines(ms: seq<Message>, r: Reference, p: Patch)
    requires UniqueIds(ms) && Refines(ms, r)
    ensures Refines(Patched(ms, p), RefPatched(r, p))
  {
    var first, r1 := PatchOne(ms, p.self), RefUpdate(r, p.self);
    UpdateRefines(ms, r, p.self);
    PatchOneKeepsIds(ms, p.self);
    SameIdsUnique(ms, first);
    UpdatesRefine(first, r1, p.updates);
    var updated, r2 := PatchEach(first, p.updates), RefUpdates(r1, p.updates);
    DeleteIsUnlisted(updated, p.removeIds);
    DropRefines(updated, r2, p.removeIds);
    if p.orderIds.Some? {
      ReorderRefines(Unlisted(updated, p.removeIds), r2.(order := Without(r2.order, p.removeIds)), p.orderIds.value);
    }
  }

  lemma {:induction false} BeforeIsUntil(ms: seq<Message>, i: nat)
    requires UniqueIds(ms) && i < |ms|
    ensures Until(Ids(ms), ms[i].id) == Ids(ms)[..i]
    decreases i
  {
    if i > 0 {
      BeforeIsUntil(ms[1..], i - 1);
      assert ms[0].id != ms[i].id;
      assert Ids(ms)[1..] == Ids(ms[1..]);
      assert Ids(ms)[..i] == [ms[0].id] + Ids(ms)[1..][..i - 1];
    }
  }

  lemma RewindRefines(ms: seq<Message>, r: Reference, id: string)
    requires UniqueIds(ms) && Refines(ms, r)
    ensures Refines(Rewound(ms, id), r.(order := if id in r.order then Until(r.order, id) else []))
  {
    InOrder(ms, id);
    if Has(ms, id) { BeforeIsUntil(ms, IndexOf(ms, id)); }
  }

  lemma ApplyRefines(s: State, r: Reference, rec: Record)
    requires UniqueIds(s.messages) && Refines(s.messages, r)
    ensures Refines(Apply(s, rec).messages, RefApply(r, rec))
  {
    if rec.rewindTo.Some? {
      RewindRefines(s.messages, r, rec.rewindTo.value);
    } else if rec.patch.Some? {
      PatchRefines(s.messages, r, rec.patch.value);
    } else if rec.message.Some? {
      PutRefines(s.messages, r, rec.message.value);
    } else if rec.assign.Some? {
      if rec.assign.value.messages.Some? { PutAllRefines([], r.(order := []), rec.assign.value.messages.value); }
    } else if rec.session.Some? && rec.session.value.messages.Some? {
      PutAllRefines(s.messages, r, rec.session.value.messages.value);
    }
  }

  /** Over any log the conversation is the reference's order of ids, each with its newest copy as patched since. */
  lemma {:induction false} FoldRefines(parse: Parser, lines: seq<string>)
    ensures Refines(Fold(parse, lines).messages, RefFold(parse, lines))
  {
    if lines != [] {
      var init, line := lines[..|lines| - 1], lines[|lines| - 1];
      FoldRefines(parse, init);
      FoldIsUnique(parse, init);
      if !IsBlank(line) && parse(line).Some? { ApplyRefines(Fold(parse, init), RefFold(parse, init), parse(line).value); }
    }
  }

  /** A rewind to an id in the conversation keeps exactly the messages before it; to any other, none. */
  lemma RewindKeepsTheMessagesBefore(ms: seq<Message>, id: string, i: nat)
    requires UniqueIds(ms) && i < |ms|
    ensures ms[i].id == id ==> Rewound(ms, id) == ms[..i]
    ensures !Has(ms, id) ==> Rewound(ms, id) == []
  {
    if ms[i].id == id { UniqueMember(ms, ms[i]); assert IndexOf(ms, id) == i; }
  }

  /** Appending a known id again changes that message alone, in place. */
  lemma ReappendKeepsThePlace(ms: seq<Message>, m: Message, i: nat)
    requires UniqueIds(ms) && i < |ms|
    ensures ms[i].id == m.id ==> Put(ms, m) == ms[i := m]
    ensures ms[i].id != m.id ==> i < |Put(ms, m)| && Put(ms, m)[i] == ms[i]
  {
    if ms[i].id == m.id { assert IndexOf(ms, m.id) == i; }
  }
}
