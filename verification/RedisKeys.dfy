/** The strings under which `RedisSaver` stores things: three kinds of key and
    the hash field of one pending write. */
module RedisKeys {
  import opened Basics

  // ---- decimal numbers ---------------------------------------------------------

  const DIGITS: string := "0123456789"

  function ShowNat(n: nat): string {
    if n < 10 then [DIGITS[n]] else ShowNat(n / 10) + [DIGITS[n % 10]]
  }

  function ShowInt(i: int): string {
    if i < 0 then "-" + ShowNat(-i) else ShowNat(i)
  }

  function DigitValue(c: char): int {
    c as int - '0' as int
  }

  function ReadNat(s: string): int {
    if s == [] then 0 else ReadNat(s[..|s| - 1]) * 10 + DigitValue(s[|s| - 1])
  }

  function ReadInt(s: string): int {
    if s != [] && s[0] == '-' then -ReadNat(s[1..]) else ReadNat(s)
  }

  predicate IsDigit(c: char) {
    '0' <= c <= '9'
  }

  lemma DigitRoundTrip(d: nat)
    requires d < 10
    ensures IsDigit(DIGITS[d]) && DigitValue(DIGITS[d]) == d
  {
    assert DIGITS[0] == '0' && DIGITS[1] == '1' && DIGITS[2] == '2' && DIGITS[3] == '3' && DIGITS[4] == '4';
    assert DIGITS[5] == '5' && DIGITS[6] == '6' && DIGITS[7] == '7' && DIGITS[8] == '8' && DIGITS[9] == '9';
  }

  lemma {:induction false} NatRoundTrip(n: nat)
    ensures ReadNat(ShowNat(n)) == n
    ensures ShowNat(n) != [] && forall c :: c in ShowNat(n) ==> IsDigit(c)
  {
    DigitRoundTrip(n % 10);
    if n < 10 {
      assert [DIGITS[n]][..0] == [];
    } else {
      NatRoundTrip(n / 10);
      var head := ShowNat(n / 10);
      assert (head + [DIGITS[n % 10]])[..|head|] == head;
    }
  }

  lemma ReadNegative(s: string)
    ensures ReadInt("-" + s) == -ReadNat(s)
  {
    assert ("-" + s)[1..] == s;
  }

  lemma ReadPositive(s: string)
    requires s != [] && IsDigit(s[0])
    ensures ReadInt(s) == ReadNat(s)
  {
  }

  lemma ShownHaveNoSeparator(i: int, sep: char)
    requires !IsDigit(sep) && sep != '-'
    ensures sep !in ShowInt(i)
  {
    if i < 0 {
      NatRoundTrip(-i);
    } else {
      NatRoundTrip(i);
    }
  }

  lemma IntRoundTrip(i: int)
    ensures ReadInt(ShowInt(i)) == i
  {
    if i < 0 {
      NatRoundTrip(-i);
      ReadNegative(ShowNat(-i));
    } else {
      NatRoundTrip(i);
      var s := ShowNat(i);
      assert s[0] in s;
      ReadPositive(s);
    }
  }

  // ---- splitting at the last separator ----------------------------------------------

  function RSplit(s: string, sep: char): Option<(string, string)> {
    if s == [] then None
    else
      var n := |s| - 1;
      if s[n] == sep then Some((s[..n], ""))
      else match RSplit(s[..n], sep)
        case None => None
        case Some(parts) => Some((parts.0, parts.1 + [s[n]]))
  }

  lemma {:induction false} RSplitJoined(head: string, tail: string, sep: char)
    requires sep !in tail
    ensures RSplit(head + [sep] + tail, sep) == Some((head, tail))
  {
    var s := head + [sep] + tail;
    if tail == [] {
      assert s[..|s| - 1] == head;
    } else {
      var t := tail[..|tail| - 1];
      assert s[..|s| - 1] == head + [sep] + t;
      RSplitJoined(head, t, sep);
      assert t + [tail[|tail| - 1]] == tail;
    }
  }

  /** Text joined at a separator its tail does not hold can be taken apart again. */
  lemma JoinedInjective(head: string, tail: string, head': string, tail': string, sep: char)
    requires sep !in tail && sep !in tail'
    requires head + [sep] + tail == head' + [sep] + tail'
    ensures head == head' && tail == tail'
  {
    RSplitJoined(head, tail, sep);
    RSplitJoined(head', tail', sep);
  }

  // ---- fields of the writes hash --------------------------------------------------------

  const FIELD_SEP: char := '\U{001f}'

  function FieldOf(task: string, idx: int): string {
    task + [FIELD_SEP] + ShowInt(idx)
  }

  function ReadField(field: string): Option<(string, int)> {
    match RSplit(field, FIELD_SEP)
    case None => None
    case Some(parts) => Some((parts.0, ReadInt(parts.1)))
  }

  /** Reading a field gives back its task id and its index, whatever the task id
      contains, so distinct writes have distinct fields. */
  lemma FieldRoundTrip(task: string, idx: int)
    ensures ReadField(FieldOf(task, idx)) == Some((task, idx))
  {
    IntRoundTrip(idx);
    ShownHaveNoSeparator(idx, FIELD_SEP);
    RSplitJoined(task, ShowInt(idx), FIELD_SEP);
  }

  lemma FieldsDistinct(task: string, idx: int, task': string, idx': int)
    ensures FieldOf(task, idx) == FieldOf(task', idx') <==> task == task' && idx == idx'
  {
    FieldRoundTrip(task, idx);
    FieldRoundTrip(task', idx');
  }

  // ---- keys --------------------------------------------------------------------------------

  const PREFIX: string := "orchestrator:checkpoint"

  function ThreadKey(kind: string, thread: string): string {
    PREFIX + ":" + kind + ":" + thread
  }

  function CheckpointKey(thread: string, ns: string, id: string): string {
    ThreadKey("cp", thread) + ":" + ns + ":" + id
  }

  function OrderKey(thread: string, ns: string): string {
    ThreadKey("order", thread) + ":" + ns
  }

  function WritesKey(thread: string, ns: string, id: string): string {
    ThreadKey("writes", thread) + ":" + ns + ":" + id
  }

  predicate ColonFree(s: string) {
    ':' !in s
  }

  lemma ThreadKeyInjective(kind: string, a: string, b: string)
    requires ThreadKey(kind, a) == ThreadKey(kind, b)
    ensures a == b
  {
    var front := PREFIX + ":" + kind + ":";
    assert (front + a)[|front|..] == a && (front + b)[|front|..] == b;
  }

  lemma LongKeyInjective(kind: string, thread: string, ns: string, id: string, thread': string, ns': string, id': string)
    requires ColonFree(ns) && ColonFree(id) && ColonFree(ns') && ColonFree(id')
    requires ThreadKey(kind, thread) + ":" + ns + ":" + id == ThreadKey(kind, thread') + ":" + ns' + ":" + id'
    ensures thread == thread' && ns == ns' && id == id'
  {
    JoinedInjective(ThreadKey(kind, thread) + ":" + ns, id, ThreadKey(kind, thread') + ":" + ns', id', ':');
    JoinedInjective(ThreadKey(kind, thread), ns, ThreadKey(kind, thread'), ns', ':');
    ThreadKeyInjective(kind, thread, thread');
  }

  /** Keys tell (thread, namespace, checkpoint) apart although thread ids may
      hold colons, as `review:<delivery>` does. */
  lemma KeysInjective(thread: string, ns: string, id: string, thread': string, ns': string, id': string)
    requires ColonFree(ns) && ColonFree(id) && ColonFree(ns') && ColonFree(id')
    ensures CheckpointKey(thread, ns, id) == CheckpointKey(thread', ns', id') ==> thread == thread' && ns == ns' && id == id'
    ensures WritesKey(thread, ns, id) == WritesKey(thread', ns', id') ==> thread == thread' && ns == ns' && id == id'
    ensures OrderKey(thread, ns) == OrderKey(thread', ns') ==> thread == thread' && ns == ns'
  {
    if CheckpointKey(thread, ns, id) == CheckpointKey(thread', ns', id') {
      LongKeyInjective("cp", thread, ns, id, thread', ns', id');
    }
    if WritesKey(thread, ns, id) == WritesKey(thread', ns', id') {
      LongKeyInjective("writes", thread, ns, id, thread', ns', id');
    }
    if OrderKey(thread, ns) == OrderKey(thread', ns') {
      JoinedInjective(ThreadKey("order", thread), ns, ThreadKey("order", thread'), ns', ':');
      ThreadKeyInjective("order", thread, thread');
    }
  }

  /** The condition is needed: a namespace with a colon can collide. */
  lemma ColonsCollide()
    ensures CheckpointKey("t", "a:b", "c") == CheckpointKey("t:a", "b", "c")
  {
    assert "t" + ":" + "a:b" == "t:a" + ":" + "b";
    assert ThreadKey("cp", "t") + ":" + "a:b" == PREFIX + ":" + "cp" + ":" + ("t" + ":" + "a:b");
    assert ThreadKey("cp", "t:a") + ":" + "b" == PREFIX + ":" + "cp" + ":" + ("t:a" + ":" + "b");
  }

  /** No key of one kind is a key of another, so the three kinds can share one database. */
  lemma KindsDisjoint(thread: string, ns: string, id: string, thread': string, ns': string, id': string)
    ensures CheckpointKey(thread, ns, id) != WritesKey(thread', ns', id')
    ensures CheckpointKey(thread, ns, id) != OrderKey(thread', ns')
    ensures WritesKey(thread, ns, id) != OrderKey(thread', ns')
  {
    var k := |PREFIX| + 1;
    assert CheckpointKey(thread, ns, id)[k] == "cp"[0] == 'c';
    assert WritesKey(thread', ns', id')[k] == "writes"[0] == 'w';
    assert WritesKey(thread, ns, id)[k] == "writes"[0] == 'w';
    assert OrderKey(thread', ns')[k] == "order"[0] == 'o';
  }
}
