/** Folding a conversation's older messages into a digest (internal/agent/compact.go), and
    the turn loop that does it (internal/agent/agent.go). */
module Compaction {
  import opened Base

  const CompactAt := 204800
  const CompactKeep := 49152

  datatype Call = Call(name: Bytes, arguments: Bytes)

  /** calls are an assistant's tool calls; tool names the call a tool's result answers; items
      are replayed verbatim. */
  datatype Message = Message(role: string, content: Bytes, calls: seq<Call>, tool: Bytes, items: seq<Bytes>)

  // ---- sizes -----------------------------------------------------------------------------

  function CallsSize(calls: seq<Call>): nat {
    if calls == [] then 0 else |calls[0].name| + |calls[0].arguments| + CallsSize(calls[1..])
  }

  function ItemsSize(items: seq<Bytes>): nat {
    if items == [] then 0 else |items[0]| + ItemsSize(items[1..])
  }

  function MsgSize(m: Message): nat {
    |m.content| + CallsSize(m.calls) + ItemsSize(m.items)
  }

  function Size(ms: seq<Message>): nat {
    if ms == [] then 0 else MsgSize(ms[0]) + Size(ms[1..])
  }

  lemma {:induction false} SizeAppend(a: seq<Message>, b: seq<Message>)
    ensures Size(a + b) == Size(a) + Size(b)
    decreases |a|
  {
    if a == [] {
      assert a + b == b;
    } else {
      assert (a + b)[1..] == a[1..] + b;
      SizeAppend(a[1..], b);
    }
  }

  method MeasureMsg(m: Message) returns (n: nat)
    ensures n == MsgSize(m)
  {
    n := |m.content|;
    var k := 0;
    assert m.calls[0..] == m.calls && m.items[0..] == m.items;
    while k < |m.calls|
      invariant 0 <= k <= |m.calls| && n + CallsSize(m.calls[k..]) == |m.content| + CallsSize(m.calls)
    {
      assert m.calls[k..][1..] == m.calls[k + 1..];
      n := n + |m.calls[k].name| + |m.calls[k].arguments|;
      k := k + 1;
    }
    var i := 0;
    while i < |m.items|
      invariant 0 <= i <= |m.items| && n + ItemsSize(m.items[i..]) == MsgSize(m)
    {
      assert m.items[i..][1..] == m.items[i + 1..];
      n := n + |m.items[i]|;
      i := i + 1;
    }
  }

  /** What a message weighs: its content, every name and argument of its calls, and its items. */
  lemma {:induction false} SizeAddsUp(m: Message, c: Call, item: Bytes)
    ensures m.calls == [] && m.items == [] ==> Size([m]) == |m.content|
    ensures Size([m.(calls := [c] + m.calls)]) == Size([m]) + |c.name| + |c.arguments|
    ensures Size([m.(items := [item] + m.items)]) == Size([m]) + |item|
  {
    var n, k := m.(calls := [c] + m.calls), m.(items := [item] + m.items);
    assert n.calls[1..] == m.calls && k.items[1..] == m.items;
    assert [m][1..] == [n][1..] == [k][1..] == [];
  }

  method ApproxSize(ms: seq<Message>) returns (n: nat)
    ensures n == Size(ms)
  {
    n := 0;
    var k := 0;
    assert ms[0..] == ms;
    while k < |ms|
      invariant 0 <= k <= |ms| && n + Size(ms[k..]) == Size(ms)
    {
      assert ms[k..][1..] == ms[k + 1..];
      var m := MeasureMsg(ms[k]);
      n := n + m;
      k := k + 1;
    }
  }

  // ---- where to cut -----------------------------------------------------------------------

  predicate Boundary(conv: seq<Message>, i: nat) {
    0 < i < |conv| && (conv[i].role == "user" || conv[i].role == "assistant")
  }

  predicate Fits(conv: seq<Message>, keep: int, i: nat) {
    Boundary(conv, i) && Size(conv[i..]) <= keep
  }

  /** The first boundary from i on whose tail fits; the length for none. */
  function LowestFit(conv: seq<Message>, keep: int, i: nat): (c: nat)
    requires i <= |conv|
    ensures i <= c <= |conv| && (c < |conv| ==> Fits(conv, keep, c)) && forall j :: i <= j < c ==> !Fits(conv, keep, j)
    decreases |conv| - i
  {
    if i == |conv| || Fits(conv, keep, i) then i else LowestFit(conv, keep, i + 1)
  }

  /** The last boundary before i; 0 for none. */
  function LastBoundary(conv: seq<Message>, i: nat): (c: nat)
    requires i <= |conv|
    ensures (c > 0 ==> c < i && Boundary(conv, c)) && forall j :: c < j < i ==> !Boundary(conv, j)
  {
    if i == 0 then 0 else if Boundary(conv, i - 1) then i - 1 else LastBoundary(conv, i - 1)
  }

  function Cut(conv: seq<Message>, keep: int): (c: nat)
    ensures c <= |conv|
  {
    if conv == [] then 0
    else
      var c := LowestFit(conv, keep, 1);
      if c < |conv| then c else LastBoundary(conv, |conv|)
  }

  /** A view may start at a message of the user or the assistant behind the first, and it fits while
      it weighs no more than keep. */
  lemma BoundaryIff(conv: seq<Message>, keep: int, i: nat)
    ensures Boundary(conv, i) <==> i > 0 && i < |conv| && conv[i].role in {"user", "assistant"}
    ensures Fits(conv, keep, i) <==> Boundary(conv, i) && !(Size(conv[i..]) > keep)
  {
  }

  /** The cut leaves the longest tail that starts at a boundary and fits, or else the last
      boundary's; there is none only when no boundary is past the first message. */
  lemma CutIsBest(conv: seq<Message>, keep: int)
    ensures var c := Cut(conv, keep);
      && (c == 0 <==> forall i: nat :: !Boundary(conv, i))
      && (c > 0 ==> Boundary(conv, c))
      && (forall i: nat :: Fits(conv, keep, i) ==> Fits(conv, keep, c) && |conv[c..]| >= |conv[i..]|)
      && ((forall i: nat :: !Fits(conv, keep, i)) ==> forall i: nat :: Boundary(conv, i) ==> i <= c)
  {
    if conv != [] {
      var c := LowestFit(conv, keep, 1);
      if c == |conv| {
        assert forall i: nat :: !Fits(conv, keep, i);
      }
    }
  }

  lemma {:induction false} TailsShrink(conv: seq<Message>, i: nat, j: nat)
    requires i <= j <= |conv|
    ensures Size(conv[j..]) <= Size(conv[i..])
  {
    assert conv[i..] == conv[i..j] + conv[j..];
    SizeAppend(conv[i..j], conv[j..]);
  }

  /** Backwards, as long as the tail fits; then backwards to any boundary. */
  method CompactCut(conv: seq<Message>, keep: int) returns (c: nat)
    ensures c == Cut(conv, keep)
  {
    var size: nat := 0;
    var cut := |conv|;
    var i := |conv| - 1;
    while i > 0
      invariant -1 <= i < |conv| && cut <= |conv|
      invariant size == Size(conv[i + 1..])
      invariant cut < |conv| ==> i < cut && Fits(conv, keep, cut)
      invariant forall j :: i < j < cut ==> !Fits(conv, keep, j)
      decreases i
    {
      assert conv[i..][1..] == conv[i + 1..];
      var m := MeasureMsg(conv[i]);
      size := size + m;
      if size > keep {
        forall j | 0 < j <= i ensures !Fits(conv, keep, j) {
          TailsShrink(conv, j, i);
        }
        break;
      }
      if conv[i].role == "user" || conv[i].role == "assistant" {
        cut := i;
      }
      i := i - 1;
    }
    if cut < |conv| {
      assert forall j :: 0 < j < cut ==> !Fits(conv, keep, j);
      LowestIs(conv, keep, cut);
      return cut;
    }
    if conv != [] {
      assert forall j :: 0 < j < |conv| ==> !Fits(conv, keep, j);
      LowestIs(conv, keep, |conv|);
    }
    i := |conv| - 1;
    while i > 0
      invariant -1 <= i < |conv|
      invariant forall j :: i < j < |conv| ==> !Boundary(conv, j)
      decreases i
    {
      if conv[i].role == "user" || conv[i].role == "assistant" {
        LastIs(conv, i);
        return i;
      }
      i := i - 1;
    }
    if conv != [] {
      LastIs(conv, 0);
    }
    return 0;
  }

  lemma LowestIs(conv: seq<Message>, keep: int, c: nat)
    requires 1 <= c <= |conv| && (c < |conv| ==> Fits(conv, keep, c)) && forall j :: 1 <= j < c ==> !Fits(conv, keep, j)
    ensures LowestFit(conv, keep, 1) == c
  {
  }

  lemma LastIs(conv: seq<Message>, c: nat)
    requires c < |conv| && (c > 0 ==> Boundary(conv, c)) && forall j :: c < j < |conv| ==> !Boundary(conv, j)
    ensures LastBoundary(conv, |conv|) == c
  {
  }

  // ---- a run -------------------------------------------------------------------------------

  /** Where the model's view starts, and what stands for all before it. */
  datatype Compact = Compact(through: nat, digest: Bytes)

  datatype Answer = Reply(m: Message) | TooLong | Failed

  /** What one turn meets: the digests it may be given (None where the call fails or says
      nothing), the backend's answers, and what each tool call returns. */
  datatype Weather = Weather(digest: Option<Bytes>, first: Answer, harder: Option<Bytes>, second: Answer,
      results: nat -> Bytes)

  /** One compaction: the messages it took from the view, and the digest given for them and all
      before them. */
  datatype Fold = Fold(messages: seq<Message>, digest: Bytes)

  /** The conversation behind the system messages, the compaction, every view that was sent,
      and every compaction so far. */
  datatype State = State(head: seq<Message>, conv: seq<Message>, comp: Compact, sent: seq<seq<Message>>,
      folds: seq<Fold>)

  const DigestIntro := Lit("Summary of the earlier conversation (older messages were condensed into this):\n")

  function DigestMsg(c: Compact): Message {
    Message("system", DigestIntro + c.digest, [], [], [])
  }

  function View(st: State, note: seq<Message>): seq<Message>
    requires st.comp.through <= |st.conv|
  {
    st.head + (if st.comp.through > 0 then [DigestMsg(st.comp)] else []) + st.conv[st.comp.through..] + note
  }

  /** compact(keep): the state after, and whether it got smaller. */
  function Compacted(st: State, keep: int, digest: Option<Bytes>): (State, bool)
    requires st.comp.through <= |st.conv|
  {
    var cut := Cut(st.conv[st.comp.through..], keep);
    if cut == 0 || digest.None? then (st, false)
    else
      (st.(comp := Compact(st.comp.through + cut, digest.value),
           folds := st.folds + [Fold(st.conv[st.comp.through..st.comp.through + cut], digest.value)]), true)
  }

  function Asked(st: State, note: seq<Message>): State
    requires st.comp.through <= |st.conv|
  {
    st.(sent := st.sent + [View(st, note)])
  }

  function Results(calls: seq<Call>, results: nat -> Bytes): (ms: seq<Message>)
    ensures |ms| == |calls|
    ensures forall i :: 0 <= i < |calls| ==>
      ms[i].role == "tool" && ms[i].tool == calls[i].name && ms[i].content == results(i)
  {
    seq(|calls|, i requires 0 <= i < |calls| => Message("tool", results(i), [], calls[i].name, []))
  }

  function Replied(st: State, m: Message, results: nat -> Bytes): State {
    st.(conv := st.conv + [m] + Results(m.calls, results))
  }

  /** At the start of a turn: a view past the limit is compacted. */
  function Readied(st: State, w: Weather): (r: State)
    requires st.comp.through <= |st.conv|
    ensures r.comp.through <= |r.conv|
  {
    if Size(st.conv[st.comp.through..]) > CompactAt then Compacted(st, CompactKeep, w.digest).0 else st
  }

  /** The request, made again once with a smaller view when it was too long. */
  function Exchanged(st: State, w: Weather, note: seq<Message>): (r: (State, Answer))
    requires st.comp.through <= |st.conv|
    ensures r.0.comp.through <= |r.0.conv|
  {
    var asked := Asked(st, note);
    if !w.first.TooLong? then (asked, w.first)
    else
      var (again, smaller) := Compacted(asked, CompactKeep / 2, w.harder);
      if smaller then (Asked(again, note), w.second) else (again, w.first)
  }

  /** One turn; done says that the loop ends. The note is the wrap-up of the last turns. */
  function Turn(st: State, w: Weather, note: seq<Message>): (r: (State, bool))
    requires st.comp.through <= |st.conv|
    ensures r.0.comp.through <= |r.0.conv|
  {
    var (after, answer) := Exchanged(Readied(st, w), w, note);
    if !answer.Reply? then (after, true) else (Replied(after, answer.m, w.results), answer.m.calls == [])
  }

  class Session {
    const head: seq<Message>
    var conv: seq<Message>
    var comp: Compact
    var sent: seq<seq<Message>>
    ghost var folds: seq<Fold>

    /** The system messages, and the prompt. */
    constructor (head: seq<Message>, prompt: Bytes)
      ensures this.head == head && Now() == Opening(head, prompt)
    {
      this.head, conv, comp, sent, folds := head, [Message("user", prompt, [], [], [])], Compact(0, []), [], [];
    }

    ghost function Now(): State reads this {
      State(head, conv, comp, sent, folds)
    }

    method CompactNow(keep: int, digest: Option<Bytes>) returns (ok: bool)
      requires comp.through <= |conv|
      modifies `comp, `folds
      ensures (Now(), ok) == Compacted(old(Now()), keep, digest)
    {
      var cut := CompactCut(conv[comp.through..], keep);
      if cut <= 0 {
        return false;
      }
      if digest.None? {
        return false;
      }
      folds := folds + [Fold(conv[comp.through..comp.through + cut], digest.value)];
      comp := Compact(comp.through + cut, digest.value);
      return true;
    }

    /** A request to the backend with the view as it is now. */
    method Ask(note: seq<Message>)
      requires comp.through <= |conv|
      modifies `sent
      ensures Now() == Asked(old(Now()), note)
    {
      var call := head;
      if comp.through > 0 {
        call := call + [DigestMsg(comp)];
      }
      assert comp.through == 0 ==> head + [] == head;
      call := call + conv[comp.through..];
      sent := sent + [call + note];
    }

    method Append(m: Message, results: nat -> Bytes)
      modifies `conv
      ensures Now() == Replied(old(Now()), m, results)
    {
      conv := conv + [m];
      ghost var before := conv;
      var k := 0;
      while k < |m.calls|
        invariant 0 <= k <= |m.calls| && conv == before + Results(m.calls, results)[..k]
      {
        conv := conv + [Message("tool", results(k), [], m.calls[k].name, [])];
        k := k + 1;
      }
      assert Results(m.calls, results)[..k] == Results(m.calls, results);
    }

    method TakeTurn(w: Weather, note: seq<Message>) returns (done: bool)
      requires comp.through <= |conv|
      modifies this
      ensures (Now(), done) == Turn(old(Now()), w, note)
    {
      var size := ApproxSize(conv[comp.through..]);
      var smaller := false;
      if size > CompactAt {
        smaller := CompactNow(CompactKeep, w.digest);
      }
      Ask(note);
      var answer := w.first;
      if answer.TooLong? {
        smaller := CompactNow(CompactKeep / 2, w.harder);
        if smaller {
          Ask(note);
          answer := w.second;
        }
      }
      if !answer.Reply? {
        return true;
      }
      Append(answer.m, w.results);
      return |answer.m.calls| == 0;
    }

    /** The turn loop: one weather and note a turn, as many as the loop may run. */
    method Run(ws: seq<Weather>, notes: seq<seq<Message>>)
      requires |notes| == |ws| && comp.through <= |conv|
      modifies this
      ensures Now() == Turns(old(Now()), ws, notes)
      ensures comp.through <= |conv|
    {
      var turn := 0;
      assert ws[0..] == ws && notes[0..] == notes;
      while turn < |ws|
        invariant 0 <= turn <= |ws| && comp.through <= |conv|
        invariant Turns(Now(), ws[turn..], notes[turn..]) == Turns(old(Now()), ws, notes)
      {
        assert ws[turn..][1..] == ws[turn + 1..] && notes[turn..][1..] == notes[turn + 1..];
        var done := TakeTurn(ws[turn], notes[turn]);
        if done {
          return;
        }
        turn := turn + 1;
      }
    }
  }

  function Opening(head: seq<Message>, prompt: Bytes): State {
    State(head, [Message("user", prompt, [], [], [])], Compact(0, []), [], [])
  }

  function Turns(st: State, ws: seq<Weather>, notes: seq<seq<Message>>): (r: State)
    requires |notes| == |ws| && st.comp.through <= |st.conv|
    ensures r.comp.through <= |r.conv|
    decreases |ws|
  {
    if ws == [] then st
    else
      var (next, done) := Turn(st, ws[0], notes[0]);
      if done then next else Turns(next, ws[1..], notes[1..])
  }

  // ---- what every turn keeps ------------------------------------------------------------------

  /** The tool result at k answers a call made in v before it. */
  predicate Answered(v: seq<Message>, k: nat)
    requires k < |v|
  {
    exists p :: 0 <= p < k && v[p].role == "assistant" && k - p <= |v[p].calls|
        && v[k].tool == v[p].calls[k - p - 1].name
                && forall j :: p < j < k ==> v[j].role == "tool"
  }

  predicate NoOrphans(v: seq<Message>) {
    forall k :: 0 <= k < |v| && v[k].role == "tool" ==> Answered(v, k)
  }

  predicate NoTools(v: seq<Message>) {
    forall k :: 0 <= k < |v| ==> v[k].role == "system"
  }

  /** All that was folded, in order. */
  function Folded(folds: seq<Fold>): seq<Message> {
    if folds == [] then [] else Folded(folds[..|folds| - 1]) + folds[|folds| - 1].messages
  }

  /** The view starts behind all that was folded, with the last digest. */
  ghost predicate Matched(st: State) {
    && st.comp.through <= |st.conv|
    && Folded(st.folds) == st.conv[..st.comp.through]
    && (st.folds != [] ==> st.comp.through > 0 && st.comp.digest == st.folds[|st.folds| - 1].digest)
  }

  ghost predicate Inv(st: State) {
    && Matched(st)
    && (st.comp.through == 0 || Boundary(st.conv, st.comp.through))
    && NoTools(st.head) && NoOrphans(st.conv)
    && forall i :: 0 <= i < |st.sent| ==> NoOrphans(st.sent[i])
  }

  lemma TailNoOrphans(conv: seq<Message>, t: nat)
    requires NoOrphans(conv) && (t == 0 || Boundary(conv, t))
    ensures t <= |conv| && NoOrphans(conv[t..])
  {
    forall k | 0 <= k < |conv[t..]| && conv[t..][k].role == "tool" ensures Answered(conv[t..], k) {
      assert conv[t + k].role == "tool";
      var p :| 0 <= p < t + k && conv[p].role == "assistant" && t + k - p <= |conv[p].calls|
        && conv[t + k].tool == conv[p].calls[t + k - p - 1].name
        && forall j :: p < j < t + k ==> conv[j].role == "tool";
      assert p >= t;
      assert conv[t..][p - t] == conv[p];
      assert forall j :: p - t < j < k ==> conv[t..][j] == conv[t + j];
    }
  }

  lemma BehindNoOrphans(before: seq<Message>, v: seq<Message>)
    requires NoTools(before) && NoOrphans(v)
    ensures NoOrphans(before + v)
  {
    var all, n := before + v, |before|;
    forall k | n <= k < |all| && all[k].role == "tool" ensures Answered(all, k) {
      AnsweredBehind(before, v, k - n);
    }
    forall k | 0 <= k < n ensures all[k].role == "system" {
    }
  }

  lemma AnsweredBehind(before: seq<Message>, v: seq<Message>, k: nat)
    requires k < |v| && Answered(v, k)
    ensures Answered(before + v, |before| + k)
  {
    var all, n := before + v, |before|;
    var p :| 0 <= p < k && v[p].role == "assistant" && k - p <= |v[p].calls|
      && v[k].tool == v[p].calls[k - p - 1].name && forall j :: p < j < k ==> v[j].role == "tool";
    assert all[n + p] == v[p] && forall j :: n + p < j < n + k ==> all[j] == v[j - n];
  }

  lemma BeforeNoOrphans(v: seq<Message>, after: seq<Message>)
    requires NoOrphans(v) && NoTools(after)
    ensures NoOrphans(v + after)
  {
    var all := v + after;
    forall k | 0 <= k < |all| && all[k].role == "tool" ensures Answered(all, k) {
      assert k < |v| && all[k] == v[k];
      var p :| 0 <= p < k && v[p].role == "assistant" && k - p <= |v[p].calls|
        && v[k].tool == v[p].calls[k - p - 1].name && forall j :: p < j < k ==> v[j].role == "tool";
      assert all[p] == v[p] && forall j :: p < j < k ==> all[j] == v[j];
    }
  }

  lemma ReplyNoOrphans(conv: seq<Message>, m: Message, results: nat -> Bytes)
    requires NoOrphans(conv) && m.role == "assistant"
    ensures NoOrphans(conv + [m] + Results(m.calls, results))
  {
    var rs, n := Results(m.calls, results), |conv|;
    var all := conv + [m] + rs;
    forall k | 0 <= k < |all| && all[k].role == "tool" ensures Answered(all, k) {
      if k < n {
        var p :| 0 <= p < k && conv[p].role == "assistant" && k - p <= |conv[p].calls|
          && conv[k].tool == conv[p].calls[k - p - 1].name && forall j :: p < j < k ==> conv[j].role == "tool";
        assert all[p] == conv[p] && forall j :: p < j <= k ==> all[j] == conv[j];
      } else {
        assert all[n] == m && all[k] == rs[k - n - 1];
        assert forall j :: n < j < k ==> all[j] == rs[j - n - 1];
      }
    }
  }

  lemma CutForward(conv: seq<Message>, t: nat, keep: int)
    requires t <= |conv|
    ensures var c := Cut(conv[t..], keep);
      t + c <= |conv| && (c > 0 ==> Boundary(conv, t + c)) && conv[..t] + conv[t..t + c] == conv[..t + c]
  {
    CutIsBest(conv[t..], keep);
    var c := Cut(conv[t..], keep);
    Joined(conv, t, c);
    assert c > 0 ==> conv[t..][c] == conv[t + c];
  }

  lemma Joined(conv: seq<Message>, t: nat, c: nat)
    requires t + c <= |conv|
    ensures conv[..t] + conv[t..t + c] == conv[..t + c]
  {
  }

  lemma CompactedKeeps(st: State, keep: int, digest: Option<Bytes>)
    requires Inv(st)
    ensures var (next, ok) := Compacted(st, keep, digest);
      && Inv(next) && next.comp.through >= st.comp.through && (ok <==> next.comp.through > st.comp.through)
      && next.conv == st.conv
  {
    CutForward(st.conv, st.comp.through, keep);
    var next := Compacted(st, keep, digest).0;
    assert next.folds != st.folds ==> next.folds[..|next.folds| - 1] == st.folds;
  }

  lemma AskedKeeps(st: State, note: seq<Message>)
    requires Inv(st) && NoTools(note)
    ensures Inv(Asked(st, note))
  {
    TailNoOrphans(st.conv, st.comp.through);
    var before := st.head + if st.comp.through > 0 then [DigestMsg(st.comp)] else [];
    BehindNoOrphans(before, st.conv[st.comp.through..]);
    BeforeNoOrphans(before + st.conv[st.comp.through..], note);
  }

  /** The backend's replies are the assistant's. */
  predicate Sound(w: Weather) {
    (w.first.Reply? ==> w.first.m.role == "assistant") && (w.second.Reply? ==> w.second.m.role == "assistant")
  }

  lemma ExchangedKeeps(st: State, w: Weather, note: seq<Message>)
    requires Inv(st) && NoTools(note)
    ensures var (next, answer) := Exchanged(st, w, note);
      && Inv(next) && next.comp.through >= st.comp.through && next.conv == st.conv
      && (answer == w.first || answer == w.second)
  {
    AskedKeeps(st, note);
    var asked := Asked(st, note);
    CompactedKeeps(asked, CompactKeep / 2, w.harder);
    AskedKeeps(Compacted(asked, CompactKeep / 2, w.harder).0, note);
  }

  lemma TurnKeeps(st: State, w: Weather, note: seq<Message>)
    requires Inv(st) && Sound(w) && NoTools(note)
    ensures Inv(Turn(st, w, note).0) && Turn(st, w, note).0.comp.through >= st.comp.through
        && st.conv <= Turn(st, w, note).0.conv
  {
    ReadiedKeeps(st, w);
    ExchangedKeeps(Readied(st, w), w, note);
    var (after, answer) := Exchanged(Readied(st, w), w, note);
    RepliedToKeeps(after, answer, w.results);
  }

  lemma ReadiedKeeps(st: State, w: Weather)
    requires Inv(st)
    ensures var ready := Readied(st, w);
      Inv(ready) && ready.comp.through >= st.comp.through && ready.conv == st.conv
  {
    CompactedKeeps(st, CompactKeep, w.digest);
  }

  lemma RepliedToKeeps(st: State, answer: Answer, results: nat -> Bytes)
    requires Inv(st) && (answer.Reply? ==> answer.m.role == "assistant")
    ensures var next := if answer.Reply? then Replied(st, answer.m, results) else st;
      Inv(next) && next.comp == st.comp && st.conv <= next.conv
  {
    if answer.Reply? {
      RepliedKeeps(st, answer.m, results);
    }
  }

  lemma RepliedKeeps(st: State, m: Message, results: nat -> Bytes)
    requires Inv(st) && m.role == "assistant"
    ensures Inv(Replied(st, m, results)) && st.conv <= Replied(st, m, results).conv
  {
    ReplyNoOrphans(st.conv, m, results);
    var next := Replied(st, m, results);
    assert next.conv[..st.comp.through] == st.conv[..st.comp.through];
  }

  /** Over any run, whatever the backend and the tools do: the start of the view only moves
      forward and stands on a user or assistant message, what was digested is exactly the
      conversation before it, once and in order, and every view that was sent holds the call
      of each tool result in it. */
  lemma {:induction false} RunNeverOrphans(st: State, ws: seq<Weather>, notes: seq<seq<Message>>)
    requires |notes| == |ws| && Inv(st)
    requires (forall i :: 0 <= i < |ws| ==> Sound(ws[i])) && forall i :: 0 <= i < |notes| ==> NoTools(notes[i])
    ensures Inv(Turns(st, ws, notes)) && Turns(st, ws, notes).comp.through >= st.comp.through
    ensures st.conv <= Turns(st, ws, notes).conv
    decreases |ws|
  {
    if ws != [] {
      TurnKeeps(st, ws[0], notes[0]);
      var (next, done) := Turn(st, ws[0], notes[0]);
      if !done {
        RunNeverOrphans(next, ws[1..], notes[1..]);
      }
    }
  }

  // ---- what the model is told ----------------------------------------------------------------

  /** The system messages, then exactly when something was folded the digest given last, then the
      conversation from the first message that was not folded on, then the note. */
  ghost predicate Told(head: seq<Message>, conv: seq<Message>, folds: seq<Fold>, note: seq<Message>, v: seq<Message>) {
    |Folded(folds)| <= |conv|
    && v == head + (if folds == [] then []
                    else [Message("system", DigestIntro + folds[|folds| - 1].digest, [], [], [])])
            + conv[|Folded(folds)|..] + note
  }

  lemma AskedTells(st: State, note: seq<Message>)
    requires Matched(st)
    ensures var next := Asked(st, note);
      |next.sent| == |st.sent| + 1 && next.sent[..|st.sent|] == st.sent
      && Told(st.head, st.conv, st.folds, note, next.sent[|st.sent|])
  {
    FoldsIff(st);
  }

  lemma FoldsIff(st: State)
    requires Matched(st)
    ensures st.folds == [] <==> st.comp.through == 0
    ensures |Folded(st.folds)| == st.comp.through
  {
  }

  /** A compaction folds what the cut says and keeps the digest it is given for it; there is none
      only without a boundary to cut at or without a digest. */
  ghost predicate FoldedTo(conv: seq<Message>, folds: seq<Fold>, keep: int, digest: Option<Bytes>, after: seq<Fold>)
    requires |Folded(folds)| <= |conv|
  {
    var tail := conv[|Folded(folds)|..];
    if digest.Some? && HasBoundary(tail) then after == folds + [Fold(tail[..Cut(tail, keep)], digest.value)]
    else after == folds
  }

  ghost predicate HasBoundary(conv: seq<Message>) {
    exists i :: Boundary(conv, i)
  }

  lemma CutIffBoundary(conv: seq<Message>, keep: int)
    ensures Cut(conv, keep) > 0 <==> HasBoundary(conv)
  {
    CutIsBest(conv, keep);
  }

  lemma CompactedFolds(st: State, keep: int, digest: Option<Bytes>)
    requires Matched(st)
    ensures |Folded(st.folds)| <= |st.conv|
    ensures var (next, ok) := Compacted(st, keep, digest);
      && FoldedTo(st.conv, st.folds, keep, digest, next.folds) && (ok <==> next.folds != st.folds)
      && Matched(next) && next.sent == st.sent && next.head == st.head && next.conv == st.conv
  {
    FoldsIff(st);
    var tail := st.conv[st.comp.through..];
    CutIffBoundary(tail, keep);
    CutForward(st.conv, st.comp.through, keep);
    var next := Compacted(st, keep, digest).0;
    assert next.folds != st.folds ==> next.folds[..|next.folds| - 1] == st.folds;
    assert tail[..Cut(tail, keep)] == st.conv[st.comp.through..st.comp.through + Cut(tail, keep)];
  }

  /** Before the request: a view over 200 KiB is compacted to 48 KiB, and no other is. */
  ghost predicate ReadyFolds(st: State, w: Weather, first: seq<Fold>)
    requires |Folded(st.folds)| <= |st.conv|
  {
    if Size(st.conv[|Folded(st.folds)|..]) > 204800 then FoldedTo(st.conv, st.folds, 49152, w.digest, first)
    else first == st.folds
  }

  lemma ReadiedFolds(st: State, w: Weather)
    requires Matched(st)
    ensures |Folded(st.folds)| <= |st.conv| && ReadyFolds(st, w, Readied(st, w).folds)
    ensures var r := Readied(st, w); Matched(r) && r.sent == st.sent && r.head == st.head && r.conv == st.conv
  {
    FoldsIff(st);
    CompactedFolds(st, CompactKeep, w.digest);
  }

  /** The request is made with the view as it is; when it is too long it is made once more with a
      view compacted to 24 KiB, if that is possible. */
  ghost predicate Requests(st: State, w: Weather, note: seq<Message>, next: State, answer: Answer) {
    var n, twice := |st.sent|, next.folds != st.folds;
    && |Folded(st.folds)| <= |st.conv|
    && |next.sent| == (if twice then n + 2 else n + 1) && next.sent[..n] == st.sent
    && next.head == st.head && next.conv == st.conv && answer == (if twice then w.second else w.first)
    && Told(st.head, st.conv, st.folds, note, next.sent[n])
    && (if w.first.TooLong? then FoldedTo(st.conv, st.folds, 24576, w.harder, next.folds) else !twice)
    && (twice ==> Told(st.head, st.conv, next.folds, note, next.sent[n + 1]))
  }

  lemma ExchangeTells(st: State, w: Weather, note: seq<Message>)
    requires Matched(st)
    ensures Requests(st, w, note, Exchanged(st, w, note).0, Exchanged(st, w, note).1)
  {
    AskedTells(st, note);
    AgainTells(Asked(st, note), w.harder, note);
  }

  lemma AgainTells(st: State, digest: Option<Bytes>, note: seq<Message>)
    requires Matched(st)
    ensures |Folded(st.folds)| <= |st.conv|
    ensures var (again, smaller) := Compacted(st, CompactKeep / 2, digest);
      && FoldedTo(st.conv, st.folds, 24576, digest, again.folds) && (smaller <==> again.folds != st.folds)
      && again.comp.through <= |again.conv|
      && var next := Asked(again, note);
      && next.sent[..|st.sent|] == st.sent && |next.sent| == |st.sent| + 1
      && next.head == st.head && next.conv == st.conv && next.folds == again.folds
      && Told(st.head, st.conv, next.folds, note, next.sent[|st.sent|])
  {
    CompactedFolds(st, CompactKeep / 2, digest);
    AskedTells(Compacted(st, CompactKeep / 2, digest).0, note);
  }

  /** One turn, in what is sent and how it ends; first is the compactions made before its first
      request. The turn ends the loop exactly on a failure or a reply without calls; a reply joins
      the conversation with the result of each of its calls. */
  ghost predicate Tells(st: State, w: Weather, note: seq<Message>, first: seq<Fold>, next: State, done: bool) {
    var n, twice := |st.sent|, next.folds != first;
    var answer := if twice then w.second else w.first;
    && |Folded(st.folds)| <= |st.conv| && ReadyFolds(st, w, first) && |Folded(first)| <= |st.conv|
    && |next.sent| == (if twice then n + 2 else n + 1) && next.sent[..n] == st.sent && next.head == st.head
    && Told(st.head, st.conv, first, note, next.sent[n])
    && (if w.first.TooLong? then FoldedTo(st.conv, first, 24576, w.harder, next.folds) else !twice)
    && (twice ==> Told(st.head, st.conv, next.folds, note, next.sent[n + 1]))
    && (done <==> !answer.Reply? || answer.m.calls == [])
    && next.conv == if answer.Reply? then st.conv + [answer.m] + Results(answer.m.calls, w.results) else st.conv
  }

  lemma TurnTells(st: State, w: Weather, note: seq<Message>) returns (first: seq<Fold>)
    requires Matched(st)
    ensures Tells(st, w, note, first, Turn(st, w, note).0, Turn(st, w, note).1)
  {
    var ready := Readied(st, w);
    ReadiedFolds(st, w);
    ExchangeTells(ready, w, note);
    first := ready.folds;
    var (after, answer) := Exchanged(ready, w, note);
    ReplyTells(st, w, note, ready, after, answer);
  }

  lemma ReplyTells(st: State, w: Weather, note: seq<Message>, ready: State, after: State, answer: Answer)
    requires |Folded(st.folds)| <= |st.conv| && ReadyFolds(st, w, ready.folds)
    requires Requests(ready, w, note, after, answer)
    requires ready.sent == st.sent && ready.head == st.head && ready.conv == st.conv
    ensures Tells(st, w, note, ready.folds, if answer.Reply? then Replied(after, answer.m, w.results) else after,
      !answer.Reply? || answer.m.calls == [])
  {
  }

  /** v is what the model was to be told at some moment of the run: after the first k compactions,
      with the first n messages of the conversation there, and one of the notes. */
  ghost predicate ToldAt(st: State, notes: seq<seq<Message>>, v: seq<Message>) {
    exists k: nat, n: nat, note :: k <= |st.folds| && n <= |st.conv| && note in notes
      && Told(st.head, st.conv[..n], st.folds[..k], note, v)
  }

  ghost predicate AllTold(st: State, notes: seq<seq<Message>>) {
    forall i :: 0 <= i < |st.sent| ==> ToldAt(st, notes, st.sent[i])
  }

  lemma ToldStays(st: State, next: State, notes: seq<seq<Message>>, v: seq<Message>)
    requires ToldAt(st, notes, v) && next.head == st.head && st.conv <= next.conv && st.folds <= next.folds
    ensures ToldAt(next, notes, v)
  {
    var k: nat, n: nat, note :| k <= |st.folds| && n <= |st.conv| && note in notes
      && Told(st.head, st.conv[..n], st.folds[..k], note, v);
    assert next.conv[..n] == st.conv[..n] && next.folds[..k] == st.folds[..k];
  }

  lemma ToldNow(st: State, conv: seq<Message>, folds: seq<Fold>, notes: seq<seq<Message>>, note: seq<Message>,
      v: seq<Message>)
    requires Told(st.head, conv, folds, note, v) && conv <= st.conv && folds <= st.folds && note in notes
    ensures ToldAt(st, notes, v)
  {
    assert st.conv[..|conv|] == conv && st.folds[..|folds|] == folds;
  }

  lemma TellsGrows(st: State, w: Weather, note: seq<Message>, first: seq<Fold>, next: State, done: bool)
    requires Tells(st, w, note, first, next, done)
    ensures st.folds <= first <= next.folds && st.conv <= next.conv && st.sent <= next.sent && next.head == st.head
    ensures |next.sent| == |st.sent| + (if next.folds != first then 2 else 1)
  {
  }

  lemma NewTold(st: State, w: Weather, notes: seq<seq<Message>>, note: seq<Message>, first: seq<Fold>, next: State,
      done: bool)
    requires Tells(st, w, note, first, next, done) && note in notes
    ensures ToldAt(next, notes, next.sent[|st.sent|])
    ensures next.folds != first ==> ToldAt(next, notes, next.sent[|st.sent| + 1])
  {
    TellsGrows(st, w, note, first, next, done);
    ToldNow(next, st.conv, first, notes, note, next.sent[|st.sent|]);
    if next.folds != first {
      ToldNow(next, st.conv, next.folds, notes, note, next.sent[|st.sent| + 1]);
    }
  }

  lemma OldTold(st: State, next: State, notes: seq<seq<Message>>)
    requires AllTold(st, notes) && next.head == st.head
    requires st.conv <= next.conv && st.folds <= next.folds && st.sent <= next.sent
    requires |st.sent| < |next.sent| <= |st.sent| + 2 && ToldAt(next, notes, next.sent[|st.sent|])
    requires |next.sent| == |st.sent| + 2 ==> ToldAt(next, notes, next.sent[|st.sent| + 1])
    ensures AllTold(next, notes)
  {
    forall i | 0 <= i < |st.sent| ensures ToldAt(next, notes, next.sent[i]) {
      ToldStays(st, next, notes, st.sent[i]);
    }
  }

  lemma TellsTold(st: State, w: Weather, notes: seq<seq<Message>>, note: seq<Message>, first: seq<Fold>, next: State,
      done: bool)
    requires Tells(st, w, note, first, next, done) && note in notes && AllTold(st, notes)
    ensures AllTold(next, notes)
  {
    TellsGrows(st, w, note, first, next, done);
    NewTold(st, w, notes, note, first, next, done);
    OldTold(st, next, notes);
  }

  lemma TurnTold(st: State, w: Weather, notes: seq<seq<Message>>, note: seq<Message>)
    requires Inv(st) && note in notes && AllTold(st, notes)
    ensures AllTold(Turn(st, w, note).0, notes)
  {
    var first := TurnTells(st, w, note);
    TellsTold(st, w, notes, note, first, Turn(st, w, note).0, Turn(st, w, note).1);
  }

  /** Over any run every view that was sent is what the model was to be told: nothing condensed is
      missing from its digest's place, and nothing that is not condensed is left out. */
  lemma {:induction false} RunTells(st: State, ws: seq<Weather>, notes: seq<seq<Message>>, all: seq<seq<Message>>)
    requires |notes| == |ws| && Inv(st) && AllTold(st, all)
    requires (forall i :: 0 <= i < |ws| ==> Sound(ws[i])) && forall i :: 0 <= i < |notes| ==> NoTools(notes[i])
    requires forall i :: 0 <= i < |notes| ==> notes[i] in all
    ensures AllTold(Turns(st, ws, notes), all)
    decreases |ws|
  {
    if ws != [] {
      TurnTold(st, ws[0], all, notes[0]);
      TurnKeeps(st, ws[0], notes[0]);
      var (next, done) := Turn(st, ws[0], notes[0]);
      if !done {
        RunTells(next, ws[1..], notes[1..], all);
      }
    }
  }

  /** Of the messages from a point on, only the last may be a reply without calls. */
  ghost predicate RepliesCall(conv: seq<Message>, start: nat) {
    forall i :: start <= i < |conv| - 1 && conv[i].role == "assistant" ==> conv[i].calls != []
  }

  /** The last message is a reply without calls. */
  predicate Ended(conv: seq<Message>) {
    conv != [] && conv[|conv| - 1].role == "assistant" && conv[|conv| - 1].calls == []
  }

  /** So far every reply made calls, and their results are there. */
  ghost predicate GoesOn(st: State, start: nat) {
    start <= |st.conv| && RepliesCall(st.conv, start)
    && (start < |st.conv| ==> st.conv[|st.conv| - 1].role == "tool")
  }

  ghost predicate Failing(ws: seq<Weather>) {
    exists i :: 0 <= i < |ws| && !ws[i].first.Reply?
  }

  /** The loop goes on after every reply with calls and ends at the first without, at a failure, or
      when its turns are used up: each turn makes a request. */
  lemma {:induction false} RunEnds(st: State, ws: seq<Weather>, notes: seq<seq<Message>>, start: nat)
    requires |notes| == |ws| && Inv(st) && GoesOn(st, start)
    requires (forall i :: 0 <= i < |ws| ==> Sound(ws[i])) && forall i :: 0 <= i < |notes| ==> NoTools(notes[i])
    ensures var end := Turns(st, ws, notes);
      && RepliesCall(end.conv, start)
      && (|end.sent| >= |st.sent| + |ws| || Ended(end.conv) || Failing(ws))
    decreases |ws|
  {
    if ws != [] {
      TurnEnds(st, ws[0], notes[0], start);
      var (next, done) := Turn(st, ws[0], notes[0]);
      if !done {
        RunEnds(next, ws[1..], notes[1..], start);
        if Failing(ws[1..]) {
          var i :| 0 <= i < |ws[1..]| && !ws[1..][i].first.Reply?;
          assert !ws[i + 1].first.Reply?;
        }
      }
    }
  }

  lemma TurnEnds(st: State, w: Weather, note: seq<Message>, start: nat)
    requires Inv(st) && Sound(w) && NoTools(note) && GoesOn(st, start)
    ensures var (next, done) := Turn(st, w, note);
      && Inv(next) && RepliesCall(next.conv, start) && |next.sent| > |st.sent|
      && (done && w.first.Reply? ==> Ended(next.conv)) && (!done ==> GoesOn(next, start))
  {
    var first := TurnTells(st, w, note);
    TurnKeeps(st, w, note);
    TurnReplies(st, w, note, first, Turn(st, w, note).0, Turn(st, w, note).1, start);
  }

  lemma TurnReplies(st: State, w: Weather, note: seq<Message>, first: seq<Fold>, next: State, done: bool, start: nat)
    requires Tells(st, w, note, first, next, done) && Sound(w) && GoesOn(st, start)
    ensures RepliesCall(next.conv, start) && |next.sent| > |st.sent|
    ensures done && w.first.Reply? ==> Ended(next.conv)
    ensures !done ==> GoesOn(next, start)
  {
    var answer := if next.folds != first then w.second else w.first;
    if answer.Reply? {
      ReplyJoins(st.conv, answer.m, Results(answer.m.calls, w.results), start);
    }
  }

  lemma ReplyJoins(conv: seq<Message>, m: Message, rs: seq<Message>, start: nat)
    requires m.role == "assistant" && start <= |conv| && RepliesCall(conv, start)
    requires start < |conv| ==> conv[|conv| - 1].role == "tool"
    requires |rs| == |m.calls| && forall k :: 0 <= k < |rs| ==> rs[k].role == "tool"
    ensures var all := conv + [m] + rs;
      && RepliesCall(all, start) && (m.calls == [] ==> Ended(all))
      && (m.calls != [] ==> start < |all| && all[|all| - 1].role == "tool")
  {
    var all, n := conv + [m] + rs, |conv|;
    forall i | start <= i < |all| - 1 && all[i].role == "assistant" ensures all[i].calls != [] {
      if i < n {
        assert all[i] == conv[i];
      } else {
        assert all[i] == ([m] + rs)[i - n];
      }
    }
    if m.calls == [] {
      assert all == conv + [m];
    } else {
      assert all[|all| - 1] == rs[|rs| - 1];
    }
  }

  lemma OpeningHolds(head: seq<Message>, prompt: Bytes)
    requires NoTools(head)
    ensures Inv(Opening(head, prompt))
  {
  }
}
