/**
  The DNS codec of src/net/mn_dns.c: the query it writes and the answers it reads, against names
  as sequences of labels and messages as sequences of records (RFC 1035, sections 3.1 and 4.1).
*/
module Dns {
  import opened Words
  import opened Common
  import opened Checksum

  const HDR_LEN: nat := 12
  const TYPE_A: U16 := 1
  const CLASS_IN: U16 := 1
  const DOT: Byte := 0x2e
  // ----- names -----

  type Label = b: seq<Byte> | 1 <= |b| <= 63 witness [0]

  /** How a name ends: at the root, or with a pointer to the rest of it elsewhere. */
  datatype Ending = Root | Pointer(hi: Byte, lo: Byte)

  datatype Name = Name(labels: seq<Label>, ending: Ending)

  predicate WellEnded(n: Name) { n.ending.Pointer? ==> n.ending.hi >= 192 }

  function LabelBytes(ls: seq<Label>): seq<Byte> {
    if ls == [] then [] else [|ls[0]|] + ls[0] + LabelBytes(ls[1..])
  }

  function NameBytes(n: Name): seq<Byte> {
    LabelBytes(n.labels) + match n.ending case Root => [0] case Pointer(hi, lo) => [hi, lo]
  }

  /** `s` stands at offset `o` of the message. */
  predicate At(m: seq<Byte>, o: nat, s: seq<Byte>) { o + |s| <= |m| && m[o..o + |s|] == s }

  lemma AtSplit(m: seq<Byte>, o: nat, a: seq<Byte>, b: seq<Byte>)
    requires At(m, o, a + b)
    ensures At(m, o, a) && At(m, o + |a|, b)
  {
    assert m[o..o + |a|] == m[o..o + |a + b|][..|a|];
    assert m[o + |a|..o + |a| + |b|] == m[o..o + |a + b|][|a|..];
  }

  /** skip_name: the offset after the name at `o`, or 0 if it runs off the end. */
  function SkipName(m: seq<Byte>, o: nat): nat
    decreases |m| - o
  {
    if o >= |m| then 0
    else if m[o] == 0 then o + 1
    else if m[o] >= 192 then if o + 2 <= |m| then o + 2 else 0
    else SkipName(m, o + 1 + m[o])
  }

  lemma {:induction false} SkipInside(m: seq<Byte>, o: nat)
    ensures SkipName(m, o) <= |m|
    ensures SkipName(m, o) != 0 ==> SkipName(m, o) > o
    decreases |m| - o
  {
    if o < |m| && 0 < m[o] < 192 {
      SkipInside(m, o + 1 + m[o]);
    }
  }

  /** A name is skipped exactly, whether it ends at the root or with a pointer. */
  lemma {:induction false} SkipsName(m: seq<Byte>, o: nat, n: Name)
    requires WellEnded(n) && At(m, o, NameBytes(n))
    ensures SkipName(m, o) == o + |NameBytes(n)|
    decreases |n.labels|
  {
    if n.labels == [] {
      EndingSkipped(m, o, n);
    } else {
      hide NameBytes, SkipName;
      var l, rest := n.labels[0], Name(n.labels[1..], n.ending);
      FirstLabel(n);
      AtSplit(m, o, [|l|] + l, NameBytes(rest));
      LabelSkipped(m, o, l);
      SkipsName(m, o + 1 + |l|, rest);
    }
  }

  lemma EndingSkipped(m: seq<Byte>, o: nat, n: Name)
    requires WellEnded(n) && n.labels == [] && At(m, o, NameBytes(n))
    ensures SkipName(m, o) == o + |NameBytes(n)|
  {
    var s := NameBytes(n);
    assert m[o] == m[o..o + |s|][0] == s[0];
  }

  lemma FirstLabel(n: Name)
    requires n.labels != []
    ensures var l := n.labels[0]; NameBytes(n) == ([|l|] + l) + NameBytes(Name(n.labels[1..], n.ending))
  {
  }

  lemma LabelSkipped(m: seq<Byte>, o: nat, l: Label)
    requires At(m, o, [|l|] + l)
    ensures SkipName(m, o) == SkipName(m, o + 1 + |l|)
  {
    assert m[o] == m[o..o + 1 + |l|][0] == |l|;
  }

  /** Reading labels back, up to a root label. */
  function ReadLabels(m: seq<Byte>, o: nat): seq<seq<Byte>>
    decreases |m| - o
  {
    if o >= |m| || m[o] == 0 || o + 1 + m[o] > |m| then []
    else [m[o + 1..o + 1 + m[o]]] + ReadLabels(m, o + 1 + m[o])
  }

  lemma {:induction false} ReadsLabels(m: seq<Byte>, o: nat, ls: seq<Label>)
    requires At(m, o, LabelBytes(ls) + [0])
    ensures ReadLabels(m, o) == ls
    decreases |ls|
  {
    if ls == [] {
      assert m[o..o + 1] == [0];
      assert m[o] == m[o..o + 1][0];
    } else {
      var l := ls[0];
      var rest := LabelBytes(ls[1..]) + [0];
      assert LabelBytes(ls) + [0] == ([|l|] + l) + rest;
      AtSplit(m, o, [|l|] + l, rest);
      assert m[o] == m[o..o + 1 + |l|][0] == |l|;
      assert m[o + 1..o + 1 + |l|] == m[o..o + 1 + |l|][1..] == l;
      ReadsLabels(m, o + 1 + |l|, ls[1..]);
    }
  }

  // ----- dotted names -----

  /** Where the first dot is, or the length. */
  function FirstDot(s: seq<Byte>): (i: nat)
    ensures i <= |s| && (i < |s| ==> s[i] == DOT) && forall j :: 0 <= j < i ==> s[j] != DOT
  {
    if s == [] || s[0] == DOT then 0 else 1 + FirstDot(s[1..])
  }

  lemma FirstDotIs(s: seq<Byte>, i: nat)
    requires i <= |s| && (i < |s| ==> s[i] == DOT) && forall j :: 0 <= j < i ==> s[j] != DOT
    ensures FirstDot(s) == i
  {
  }

  /** The parts between the dots. */
  function Split(s: seq<Byte>): (p: seq<seq<Byte>>)
    ensures |p| >= 1
    decreases |s|
  {
    var i := FirstDot(s);
    if i == |s| then [s] else [s[..i]] + Split(s[i + 1..])
  }

  function Join(p: seq<seq<Byte>>): seq<Byte>
    requires |p| >= 1
  {
    if |p| == 1 then p[0] else p[0] + [DOT] + Join(p[1..])
  }

  /** Nothing of the name is lost by splitting it. */
  lemma {:induction false} JoinSplit(s: seq<Byte>)
    ensures Join(Split(s)) == s
    decreases |s|
  {
    var i := FirstDot(s);
    if i < |s| {
      JoinSplit(s[i + 1..]);
      assert Split(s)[1..] == Split(s[i + 1..]);
      assert s == s[..i] + [DOT] + s[i + 1..];
    }
  }

  predicate AllLabels(p: seq<seq<Byte>>) { forall i :: 0 <= i < |p| ==> 1 <= |p[i]| <= 63 }

  /** The names `build` accepts: no empty label, none over 63. */
  predicate Accepted(name: seq<Byte>) { AllLabels(Split(name)) }

  function AsLabels(p: seq<seq<Byte>>): (ls: seq<Label>)
    requires AllLabels(p)
    ensures ls == p
  {
    p
  }

  // ----- the query -----

  function QueryName(name: seq<Byte>): Name
    requires Accepted(name)
  {
    Name(AsLabels(Split(name)), Root)
  }

  function Query(id: U16, name: seq<Byte>): seq<Byte>
    requires Accepted(name)
  {
    Put16(id) + [1, 0, 0, 1, 0, 0, 0, 0, 0, 0] + NameBytes(QueryName(name)) + [0, 1, 0, 1]
  }

  /** The labels of the query decode back to the name, and skip_name lands exactly after it. */
  lemma QueryReadsBack(id: U16, name: seq<Byte>, rest: seq<Byte>)
    requires Accepted(name)
    ensures var m := Query(id, name) + rest;
            && ReadLabels(m, HDR_LEN) == Split(name) && Join(Split(name)) == name
            && SkipName(m, HDR_LEN) == HDR_LEN + |NameBytes(QueryName(name))|
            && |Query(id, name)| == SkipName(m, HDR_LEN) + 4
  {
    var m, n := Query(id, name) + rest, NameBytes(QueryName(name));
    assert m[HDR_LEN..HDR_LEN + |n|] == n;
    SkipsName(m, HDR_LEN, QueryName(name));
    ReadsLabels(m, HDR_LEN, QueryName(name).labels);
    JoinSplit(name);
  }

  // ----- answers -----

  datatype Question = Question(name: Name, typ: U16, cls: U16)

  datatype Record = Record(name: Name, typ: U16, cls: U16, ttl: U32, data: seq<Byte>)

  predicate GoodQuestion(q: Question) { WellEnded(q.name) }

  predicate GoodRecord(r: Record) { WellEnded(r.name) && |r.data| < 0x1_0000 }

  predicate GoodQuestions(qs: seq<Question>) { forall i :: 0 <= i < |qs| ==> GoodQuestion(qs[i]) }

  predicate GoodRecords(rs: seq<Record>) { forall i :: 0 <= i < |rs| ==> GoodRecord(rs[i]) }

  function QuestionBytes(q: Question): seq<Byte> { NameBytes(q.name) + (Put16(q.typ) + Put16(q.cls)) }

  function Fixed(r: Record): (b: seq<Byte>)
    requires |r.data| < 0x1_0000
    ensures |b| == 10
  {
    Put16(r.typ) + Put16(r.cls) + Put32(r.ttl) + Put16(|r.data|)
  }

  function RecordBytes(r: Record): seq<Byte>
    requires GoodRecord(r)
  {
    NameBytes(r.name) + (Fixed(r) + r.data)
  }

  function QuestionsBytes(qs: seq<Question>): seq<Byte> {
    if qs == [] then [] else QuestionBytes(qs[0]) + QuestionsBytes(qs[1..])
  }

  function RecordsBytes(rs: seq<Record>): seq<Byte>
    requires GoodRecords(rs)
  {
    if rs == [] then [] else RecordBytes(rs[0]) + RecordsBytes(rs[1..])
  }

  /** A whole response: header, questions, answers, then whatever else the server adds. */
  function ResponseBytes(id: U16, flags: U16, qs: seq<Question>, rs: seq<Record>, counts: U32, more: seq<Byte>): seq<Byte>
    requires |qs| < 0x1_0000 && |rs| < 0x1_0000 && GoodRecords(rs)
  {
    (Put16(id) + Put16(flags) + Put16(|qs|) + Put16(|rs|) + Put32(counts))
    + (QuestionsBytes(qs) + (RecordsBytes(rs) + more))
  }

  /** What came of a message. */
  datatype Verdict = Ignored | Refused | Address(ip: Addr)

  /** The offset after `qd` questions. */
  function SkipQuestions(m: seq<Byte>, o: nat, qd: nat): Option<nat>
    decreases qd
  {
    if qd == 0 then Some(o)
    else
      var n := SkipName(m, o);
      if n == 0 || n + 4 > |m| then None else SkipQuestions(m, n + 4, qd - 1)
  }

  /** The first A record of class IN among `an` answers; the record length is added in 16 bits,
      so that the offset can move backwards. */
  function FindAddress(m: seq<Byte>, o: nat, an: nat): Verdict
    requires |m| <= SOCK_BUF
    decreases an
  {
    if an == 0 then Ignored
    else
      var n := SkipName(m, o);
      if n == 0 || n + 10 > |m| then Ignored
      else
        var rdlen := Field(m, n + 8);
        if Wrap16(n + 10 + rdlen) > |m| then Ignored
        else if Field(m, n) == TYPE_A && Field(m, n + 2) == CLASS_IN && rdlen == 4 then
          Address(m[n + 10..n + 14])
        else FindAddress(m, Wrap16(n + 10 + rdlen), an - 1)
  }

  /** mn_dns.c's `parse` of a message, for the query with this id. */
  function Verdicts(id: U16, m: seq<Byte>): Verdict
    requires |m| <= SOCK_BUF
  {
    if |m| < HDR_LEN || Field(m, 0) != id || m[2] < 128 then Ignored
    else if m[3] % 16 != 0 then Refused
    else
      match SkipQuestions(m, HDR_LEN, Field(m, 4))
      case None => Ignored
      case Some(o) => FindAddress(m, o, Field(m, 6))
  }

  /** The answer a reader of the records would give: the first A record of class IN with four bytes. */
  function FirstAddress(rs: seq<Record>): Verdict {
    if rs == [] then Ignored
    else if rs[0].typ == TYPE_A && rs[0].cls == CLASS_IN && |rs[0].data| == 4 then Address(rs[0].data)
    else FirstAddress(rs[1..])
  }

  lemma {:induction false} QuestionsSkipped(m: seq<Byte>, o: nat, qs: seq<Question>)
    requires At(m, o, QuestionsBytes(qs)) && GoodQuestions(qs)
    ensures SkipQuestions(m, o, |qs|) == Some(o + |QuestionsBytes(qs)|)
    decreases |qs|
  {
    if qs != [] {
      hide QuestionBytes, At, GoodQuestion;
      var q := qs[0];
      AtSplit(m, o, QuestionBytes(q), QuestionsBytes(qs[1..]));
      OneQuestion(m, o, q, |qs|);
      QuestionsSkipped(m, o + |QuestionBytes(q)|, qs[1..]);
    }
  }

  lemma OneQuestion(m: seq<Byte>, o: nat, q: Question, qd: nat)
    requires GoodQuestion(q) && At(m, o, QuestionBytes(q)) && qd > 0
    ensures SkipQuestions(m, o, qd) == SkipQuestions(m, o + |QuestionBytes(q)|, qd - 1)
  {
    hide NameBytes, SkipName, At;
    AtSplit(m, o, NameBytes(q.name), Put16(q.typ) + Put16(q.cls));
    SkipsName(m, o, q.name);
    NameNotEmpty(q.name);
    AtEnds(m, o, QuestionBytes(q));
  }

  lemma FirstRecord(rs: seq<Record>)
    requires GoodRecords(rs) && rs != []
    ensures GoodRecord(rs[0]) && GoodRecords(rs[1..]) && RecordsBytes(rs) == RecordBytes(rs[0]) + RecordsBytes(rs[1..])
    ensures FirstAddress(rs) == if rs[0].typ == TYPE_A && rs[0].cls == CLASS_IN && |rs[0].data| == 4
                                then Address(rs[0].data) else FirstAddress(rs[1..])
  {
    hide RecordBytes;
  }

  lemma AtEnds(m: seq<Byte>, o: nat, s: seq<Byte>)
    requires At(m, o, s)
    ensures o + |s| <= |m|
  {
  }

  lemma RecordFields(m: seq<Byte>, o: nat, r: Record)
    requires |r.data| < 0x1_0000 && At(m, o, Fixed(r) + r.data)
    ensures Field(m, o) == r.typ && Field(m, o + 2) == r.cls && Field(m, o + 8) == |r.data|
    ensures o + 10 + |r.data| <= |m| && m[o + 10..o + 10 + |r.data|] == r.data
  {
    var b := Fixed(r);
    AtSplit(m, o, b, r.data);
    assert forall i :: 0 <= i < 10 ==> m[o + i] == m[o..o + 10][i] == b[i];
    assert b[0..2] == Put16(r.typ) && b[2..4] == Put16(r.cls) && b[8..10] == Put16(|r.data|);
  }

  lemma {:induction false} AddressFound(m: seq<Byte>, o: nat, rs: seq<Record>)
    requires GoodRecords(rs) && At(m, o, RecordsBytes(rs)) && |m| <= SOCK_BUF
    ensures FindAddress(m, o, |rs|) == FirstAddress(rs)
    decreases |rs|
  {
    hide RecordBytes, RecordsBytes, FindAddress, FirstAddress, At, GoodRecord, GoodRecords;
    if rs == [] {
      NoRecords(m, o, rs);
    } else {
      FirstRecord(rs);
      AtSplit(m, o, RecordBytes(rs[0]), RecordsBytes(rs[1..]));
      OneRecord(m, o, rs[0], |rs|);
      AddressFound(m, o + |RecordBytes(rs[0])|, rs[1..]);
    }
  }

  lemma NoRecords(m: seq<Byte>, o: nat, rs: seq<Record>)
    requires rs == [] && |m| <= SOCK_BUF
    ensures FindAddress(m, o, 0) == FirstAddress(rs)
  {
  }

  lemma NameNotEmpty(n: Name)
    ensures |NameBytes(n)| > 0
  {
  }

  lemma OneRecord(m: seq<Byte>, o: nat, r: Record, an: nat)
    requires GoodRecord(r) && At(m, o, RecordBytes(r)) && |m| <= SOCK_BUF && an > 0
    ensures FindAddress(m, o, an) ==
            if r.typ == TYPE_A && r.cls == CLASS_IN && |r.data| == 4 then Address(r.data)
            else FindAddress(m, o + |RecordBytes(r)|, an - 1)
  {
    hide NameBytes, SkipName, At, Field, Fixed;
    AtSplit(m, o, NameBytes(r.name), Fixed(r) + r.data);
    SkipsName(m, o, r.name);
    NameNotEmpty(r.name);
    var n := o + |NameBytes(r.name)|;
    RecordFields(m, n, r);
    SmallWrap16(n + 10 + |r.data|);
  }

  /** Every well-formed response of at most 576 bytes to the query, with compression pointers and any
      records before the answer and after it, yields the first A record of class IN; a response with
      an error code ends the lookup. */
  lemma WellFormedAnswered(id: U16, flags: U16, qs: seq<Question>, rs: seq<Record>, counts: U32, more: seq<Byte>)
    requires |qs| < 0x1_0000 && |rs| < 0x1_0000
    requires GoodQuestions(qs) && GoodRecords(rs)
    requires |ResponseBytes(id, flags, qs, rs, counts, more)| <= SOCK_BUF && flags >= 0x8000
    ensures var v := Verdicts(id, ResponseBytes(id, flags, qs, rs, counts, more));
            v == if flags % 16 == 0 then FirstAddress(rs) else Refused
  {
    hide QuestionsBytes, RecordsBytes, At, Field, FindAddress, SkipQuestions, FirstAddress, GoodQuestions, GoodRecords;
    var m := ResponseBytes(id, flags, qs, rs, counts, more);
    var h := Put16(id) + Put16(flags) + Put16(|qs|) + Put16(|rs|) + Put32(counts);
    var body := QuestionsBytes(qs) + (RecordsBytes(rs) + more);
    HeaderFields(m, id, flags, |qs|, |rs|, counts);
    WholeAt(h + body);
    AtSplit(m, 0, h, body);
    AtSplit(m, HDR_LEN, QuestionsBytes(qs), RecordsBytes(rs) + more);
    AtSplit(m, HDR_LEN + |QuestionsBytes(qs)|, RecordsBytes(rs), more);
    QuestionsSkipped(m, HDR_LEN, qs);
    AddressFound(m, HDR_LEN + |QuestionsBytes(qs)|, rs);
  }

  /** A response to another query, or a query, changes nothing, whatever it holds. */
  lemma OthersIgnored(own: U16, id: U16, flags: U16, qs: seq<Question>, rs: seq<Record>, counts: U32, more: seq<Byte>)
    requires |qs| < 0x1_0000 && |rs| < 0x1_0000 && GoodQuestions(qs) && GoodRecords(rs)
    requires |ResponseBytes(id, flags, qs, rs, counts, more)| <= SOCK_BUF && (id != own || flags < 0x8000)
    ensures Verdicts(own, ResponseBytes(id, flags, qs, rs, counts, more)) == Ignored
  {
    hide QuestionsBytes, RecordsBytes, FindAddress, SkipQuestions, GoodQuestions, GoodRecords, Field;
    var m := ResponseBytes(id, flags, qs, rs, counts, more);
    HeaderFields(m, id, flags, |qs|, |rs|, counts);
  }

  lemma WholeAt(s: seq<Byte>)
    ensures At(s, 0, s)
  {
  }

  lemma HeaderFields(m: seq<Byte>, id: U16, flags: U16, qd: U16, an: U16, counts: U32)
    requires Put16(id) + Put16(flags) + Put16(qd) + Put16(an) + Put32(counts) <= m
    ensures |m| >= HDR_LEN && Field(m, 0) == id && Field(m, 4) == qd && Field(m, 6) == an
    ensures m[2] == flags / 256 && m[3] % 16 == flags % 16
  {
    var h := Put16(id) + Put16(flags) + Put16(qd) + Put16(an) + Put32(counts);
    assert forall i :: 0 <= i < HDR_LEN ==> m[i] == h[i];
    assert h[0..2] == Put16(id) && h[2..4] == Put16(flags) && h[4..6] == Put16(qd) && h[6..8] == Put16(an);
  }

  // ----- the loops -----

  /** skip_name */
  method SkipNameIn(m: seq<Byte>, at: U16) returns (r: U16)
    requires |m| <= SOCK_BUF
    ensures r == SkipName(m, at) && r <= |m|
  {
    var o := at;
    SkipInside(m, o);
    while o < |m|
      invariant SkipName(m, o) == SkipName(m, at)
      decreases |m| - o
    {
      var n := m[o];
      if n == 0 {
        return o + 1;
      }
      if n >= 192 {
        return if o + 2 <= |m| then o + 2 else 0;
      }
      o := o + 1 + n;
    }
    r := 0;
  }

  /** What the query's name has been turned into so far: whole labels, then part of one. */
  ghost predicate Progress(s: seq<Byte>, done: seq<Label>, start: nat, i: nat) {
    && start <= i <= |s| && (forall k :: start <= k < i ==> s[k] != DOT)
    && Split(s) == done + Split(s[start..])
  }

  /** A label that ends at `i` joins the others. */
  lemma LabelDone(s: seq<Byte>, done: seq<Label>, start: nat, i: nat)
    requires Progress(s, done, start, i) && i < |s| && s[i] == DOT && 1 <= i - start <= 63
    ensures Progress(s, done + [s[start..i]], i + 1, i + 1)
  {
    hide Split, FirstDot;
    DotFound(s, start, i);
    assert done + ([s[start..i]] + Split(s[i + 1..])) == (done + [s[start..i]]) + Split(s[i + 1..]);
  }

  lemma DotFound(s: seq<Byte>, start: nat, i: nat)
    requires start <= i < |s| && s[i] == DOT && forall k :: start <= k < i ==> s[k] != DOT
    ensures Split(s[start..]) == [s[start..i]] + Split(s[i + 1..])
  {
    hide Split, FirstDot;
    var r := s[start..];
    FirstDotIs(r, i - start);
    SplitAt(r, i - start);
    assert r[..i - start] == s[start..i] && r[i - start + 1..] == s[i + 1..];
  }

  lemma SplitAt(s: seq<Byte>, i: nat)
    requires i == FirstDot(s) < |s|
    ensures Split(s) == [s[..i]] + Split(s[i + 1..])
  {
  }

  lemma {:induction false} MoreLabels(ls: seq<Label>, l: Label)
    ensures LabelBytes(ls + [l]) == LabelBytes(ls) + [|l|] + l
  {
    if ls == [] {
      assert [l][1..] == [];
      assert LabelBytes([l]) == [|l|] + l + LabelBytes([]);
    } else {
      assert (ls + [l])[1..] == ls[1..] + [l];
      MoreLabels(ls[1..], l);
    }
  }

  /** A part that is empty or too long makes the whole name unacceptable. */
  lemma BadLabel(s: seq<Byte>, done: seq<Label>, start: nat, i: nat)
    requires Progress(s, done, start, i)
    requires (i == start && (i == |s| || s[i] == DOT)) || i - start > 63
    ensures !Accepted(s)
  {
    var r := s[start..];
    var d := FirstDot(r);
    if i == start {
      FirstDotIs(r, 0);
    } else {
      assert d >= i - start;
    }
    assert Split(s)[|done|] == Split(r)[0] == r[..d];
  }

  /** The last part completes the name. */
  lemma LastLabel(s: seq<Byte>, done: seq<Label>, start: nat)
    requires Progress(s, done, start, |s|) && 1 <= |s| - start <= 63
    ensures Accepted(s)
    ensures NameBytes(QueryName(s)) == LabelBytes(done) + [|s| - start] + s[start..] + [0]
  {
    var r := s[start..];
    FirstDotIs(r, |r|);
    assert Split(s) == done + [r];
    MoreLabels(done, r);
  }

  datatype Lookup = Idle | Waiting | Done | Failed

  class Resolver {
    var state: Lookup
    var id: U16
    var name: seq<Byte>
    var ip: Addr

    constructor (id: U16, name: seq<Byte>)
      ensures this.id == id && this.name == name && state == Waiting
    {
      this.id, this.name, state, ip := id, name, Waiting, [0, 0, 0, 0];
    }

    /** `build`: the query for the name, or 0 for a name with an empty label or one over 63. */
    method Build(msg: array<Byte>) returns (n: U16)
      requires |name| <= 255 && msg.Length >= 300
      modifies msg
      ensures if Accepted(name) then n == |Query(id, name)| && n <= msg.Length && msg[..n] == Query(id, name) else n == 0
    {
      var head := Put16(id) + [1, 0, 0, 1, 0, 0, 0, 0, 0, 0];
      hide Query, NameBytes, Accepted, LabelBytes;
      PutBytes(msg, 0, head);
      var ok, o := PutLabels(msg, head);
      if !ok {
        return 0;
      }
      QueryIs(id, name);
      PutBytes(msg, o, [0, 0, 1, 0, 1]);
      n := o + 5;
      assert msg[..n] == msg[..o] + msg[o..n];
    }

    /** The name as labels after the header; false for a name that is not accepted. */
    method PutLabels(msg: array<Byte>, ghost head: seq<Byte>) returns (ok: bool, o: nat)
      requires |name| <= 255 && msg.Length >= 300 && |head| == HDR_LEN && msg[..HDR_LEN] == head
      modifies msg
      ensures ok <==> Accepted(name)
      ensures ok ==> o <= 268 && msg[..o] + [0] == head + NameBytes(QueryName(name))
    {
      hide NameBytes, Accepted, Progress, LabelBytes, Split;
      var lenpos: nat, i := HDR_LEN, 0;
      o := HDR_LEN + 1;
      var count: nat := 0;
      ghost var done: seq<Label>, start, before := [], 0, head;
      NoLabels(name);
      assert msg[..o] == before + [msg[lenpos]] + name[0..0];
      while i < |name|
        invariant i <= |name| && start + count == i && count <= 63 && Progress(name, done, start, i)
        invariant before == head + LabelBytes(done) && lenpos == |before| <= HDR_LEN + start && o == lenpos + 1 + count
        invariant msg[..o] == before + [msg[lenpos]] + name[start..i]
      {
        if name[i] == DOT {
          if count == 0 {
            BadLabel(name, done, start, i);
            ok := false;
            return;
          }
          EndLabel(msg, o, lenpos, count, i, head, done, start);
          before, done, start := msg[..o], done + [name[start..i]], i + 1;
          lenpos := o;
          o := o + 1;
          count := 0;
          assert msg[..o] == before + [msg[lenpos]] + name[i + 1..i + 1];
        } else {
          OneMore(name, done, start, i);
          Push(msg, o, lenpos, name[i], before, name[start..i]);
          assert name[start..i + 1] == name[start..i] + [name[i]];
          o := o + 1;
          count := count + 1;
          if count > 63 {
            BadLabel(name, done, start, i + 1);
            ok := false;
            return;
          }
        }
        i := i + 1;
      }
      ok := count != 0;
      assert name[start..i] == name[start..];
      if ok {
        PutLast(msg, o, lenpos, count, head, done, start);
      } else {
        BadLabel(name, done, start, i);
      }
    }

    /** The length of a label that ends at a dot goes in front of it. */
    method EndLabel(msg: array<Byte>, o: nat, lenpos: nat, count: nat, i: nat,
                    ghost head: seq<Byte>, ghost done: seq<Label>, ghost start: nat)
      requires i < |name| && name[i] == DOT && Progress(name, done, start, i) && 1 <= count == i - start <= 63
      requires lenpos == |head + LabelBytes(done)| && o == lenpos + 1 + count <= msg.Length
      requires msg[..o] == head + LabelBytes(done) + [msg[lenpos]] + name[start..i]
      modifies msg
      ensures Progress(name, done + [name[start..i]], i + 1, i + 1)
      ensures msg[..o] == head + LabelBytes(done + [name[start..i]])
    {
      hide NameBytes, Accepted, Progress, LabelBytes, Split;
      LabelDone(name, done, start, i);
      MoreLabels(done, name[start..i]);
      Patch(msg, o, lenpos, count, head + LabelBytes(done), name[start..i]);
      Joined(head, LabelBytes(done), count, name[start..i]);
    }

    /** The last label's length goes in front of it. */
    method PutLast(msg: array<Byte>, o: nat, lenpos: nat, count: nat,
                   ghost head: seq<Byte>, ghost done: seq<Label>, ghost start: nat)
      requires Progress(name, done, start, |name|) && 1 <= count == |name| - start <= 63
      requires lenpos == |head + LabelBytes(done)| && o == lenpos + 1 + count <= msg.Length
      requires msg[..o] == head + LabelBytes(done) + [msg[lenpos]] + name[start..]
      modifies msg
      ensures Accepted(name) && msg[..o] + [0] == head + NameBytes(QueryName(name))
    {
      hide NameBytes, Accepted, Progress, LabelBytes, Split;
      LastLabel(name, done, start);
      Patch(msg, o, lenpos, count, head + LabelBytes(done), name[start..]);
      Closed(head, LabelBytes(done), count, name[start..]);
    }

    /** `parse`: a good answer fills in the address, an error code fails the lookup. */
    method Parse(m: seq<Byte>) returns (ok: bool)
      requires |m| <= SOCK_BUF
      modifies this`state, this`ip
      ensures match Verdicts(id, m)
              case Address(a) => ok && ip == a && state == old(state)
              case Refused => !ok && ip == old(ip) && state == Failed
              case Ignored => !ok && ip == old(ip) && state == old(state)
    {
      hide SkipQuestions, FindAddress;
      ok := false;
      if |m| < HDR_LEN || Get16(m[0], m[1]) != id || m[2] < 128 {
        return;
      }
      if m[3] % 16 != 0 {
        state := Failed;
        return;
      }
      var o := SkipQuestionsIn(m, Get16(m[4], m[5]));
      if o.None? {
        return;
      }
      var v := FindIn(m, o.value, Get16(m[6], m[7]));
      if v.Address? {
        ip := v.ip;
        ok := true;
      }
    }
  }

  /** The loop over the questions. */
  method SkipQuestionsIn(m: seq<Byte>, count: U16) returns (r: Option<U16>)
    requires HDR_LEN <= |m| <= SOCK_BUF
    ensures match SkipQuestions(m, HDR_LEN, count)
            case None => r.None?
            case Some(o) => r.Some? && r.value == o
  {
    var o: U16, qd := HDR_LEN, count;
    hide SkipName;
    while qd > 0
      invariant SkipQuestions(m, o, qd) == SkipQuestions(m, HDR_LEN, count)
    {
      o := SkipNameIn(m, o);
      if o == 0 || o + 4 > |m| {
        return None;
      }
      o := o + 4;
      qd := qd - 1;
    }
    r := Some(o);
  }

  /** The loop over the answers. */
  method FindIn(m: seq<Byte>, start: U16, count: U16) returns (v: Verdict)
    requires |m| <= SOCK_BUF
    ensures v == FindAddress(m, start, count) && !v.Refused?
  {
    var o: U16, an: U16 := start, count;
    hide SkipName, FindAddress, Field, Wrap16, Get16;
    while an > 0
      invariant FindAddress(m, o, an) == FindAddress(m, start, count)
    {
      FindStep(m, o, an);
      o := SkipNameIn(m, o);
      if o == 0 || o + 10 > |m| {
        return Ignored;
      }
      var typ, cls, rdlen := Get16(m[o], m[o + 1]), Get16(m[o + 2], m[o + 3]), Get16(m[o + 8], m[o + 9]);
      o := o + 10;
      if Wrap16(o + rdlen) > |m| {
        return Ignored;
      }
      if typ == TYPE_A && cls == CLASS_IN && rdlen == 4 {
        return Address(m[o..o + 4]);
      }
      o := Wrap16(o + rdlen);
      an := an - 1;
    }
    NoneLeft(m, o);
    v := Ignored;
  }

  lemma NoneLeft(m: seq<Byte>, o: nat)
    requires |m| <= SOCK_BUF
    ensures FindAddress(m, o, 0) == Ignored
  {
  }

  /** One round of the loop over the answers. */
  lemma FindStep(m: seq<Byte>, o: nat, an: nat)
    requires |m| <= SOCK_BUF && an > 0
    ensures var n := SkipName(m, o);
            if n == 0 || n + 10 > |m| then FindAddress(m, o, an) == Ignored
            else
              var typ, cls, rdlen := Get16(m[n], m[n + 1]), Get16(m[n + 2], m[n + 3]), Get16(m[n + 8], m[n + 9]);
              var next := Wrap16(n + 10 + rdlen);
              if next > |m| then FindAddress(m, o, an) == Ignored
              else if typ == TYPE_A && cls == CLASS_IN && rdlen == 4 then
                n + 14 <= |m| && FindAddress(m, o, an) == Address(m[n + 10..n + 14])
              else FindAddress(m, o, an) == FindAddress(m, next, an - 1)
  {
    hide SkipName, Wrap16, Get16;
    var n := SkipName(m, o);
    if n + 10 <= |m| {
      SmallWrap16(n + 14);
    }
  }

  lemma Joined(a: seq<Byte>, b: seq<Byte>, n: Byte, l: seq<Byte>)
    ensures a + b + [n] + l == a + (b + [n] + l)
  {
  }

  lemma Closed(a: seq<Byte>, b: seq<Byte>, n: Byte, l: seq<Byte>)
    ensures a + b + [n] + l + [0] == a + (b + [n] + l + [0])
  {
  }

  /** Appends a byte of a label. */
  method Push(b: array<Byte>, o: nat, at: nat, v: Byte, ghost before: seq<Byte>, ghost part: seq<Byte>)
    requires at == |before| && o == at + 1 + |part| < b.Length && b[..o] == before + [b[at]] + part
    modifies b
    ensures b[at] == old(b[at]) && b[..o + 1] == before + [b[at]] + (part + [v])
  {
    b[o] := v;
  }

  /** Fills in the length in front of a label. */
  method Patch(b: array<Byte>, o: nat, at: nat, v: Byte, ghost before: seq<Byte>, ghost part: seq<Byte>)
    requires at == |before| && o == at + 1 + |part| <= b.Length && b[..o] == before + [b[at]] + part
    modifies b
    ensures b[..o] == before + [v] + part
  {
    b[at] := v;
  }

  lemma NoLabels(s: seq<Byte>)
    ensures Progress(s, [], 0, 0) && LabelBytes([]) == []
  {
    assert s[0..] == s;
  }

  lemma OneMore(s: seq<Byte>, done: seq<Label>, start: nat, i: nat)
    requires Progress(s, done, start, i) && i < |s| && s[i] != DOT
    ensures Progress(s, done, start, i + 1)
  {
  }

  lemma QueryIs(id: U16, s: seq<Byte>)
    requires Accepted(s)
    ensures Query(id, s) == Put16(id) + [1, 0, 0, 1, 0, 0, 0, 0, 0, 0] + NameBytes(QueryName(s)) + [0, 1, 0, 1]
  {
  }
}
