/**
 * `sort_messages_by_timestamp`: every list session is stably sorted by the
 * message timestamps (a missing one counts as the empty string); any other
 * session value is passed through.
 */
module TemporalSorter {
  import opened Wrappers
  import opened Records

  /** Python's `a <= b` on strings: lexicographic by code point */
  predicate LexLe(a: string, b: string) {
    a == [] || (b != [] && (a[0] < b[0] || (a[0] == b[0] && LexLe(a[1..], b[1..]))))
  }

  lemma {:induction false} LexLeReflexive(a: string)
    ensures LexLe(a, a)
  {
    if a != [] { LexLeReflexive(a[1..]); }
  }

  lemma {:induction false} LexLeTotal(a: string, b: string)
    ensures LexLe(a, b) || LexLe(b, a)
  {
    if a != [] && b != [] && a[0] == b[0] { LexLeTotal(a[1..], b[1..]); }
  }

  lemma {:induction false} LexLeAntisymmetric(a: string, b: string)
    requires LexLe(a, b) && LexLe(b, a)
    ensures a == b
  {
    if a != [] && b != [] {
      LexLeAntisymmetric(a[1..], b[1..]);
      assert a == [a[0]] + a[1..] && b == [b[0]] + b[1..];
    }
  }

  lemma {:induction false} LexLeTransitive(a: string, b: string, c: string)
    requires LexLe(a, b) && LexLe(b, c)
    ensures LexLe(a, c)
  {
    if a != [] && b != [] && c != [] && a[0] == b[0] == c[0] {
      LexLeTransitive(a[1..], b[1..], c[1..]);
    }
  }

  /** The empty string sorts first */
  lemma EmptyIsLeast(a: string)
    ensures LexLe("", a)
  {
  }

  /** `x.get('timestamp', '')` */
  function Key(m: Message): string {
    m.timestamp.GetOr("")
  }

  /** Ascending by key */
  ghost predicate Sorted(ms: seq<Message>) {
    forall i, j :: 0 <= i < j < |ms| ==> LexLe(Key(ms[i]), Key(ms[j]))
  }

  /** The messages of ms whose key is k, in their order in ms */
  function WithKey(ms: seq<Message>, k: string): (r: seq<Message>)
    ensures |r| <= |ms|
  {
    if ms == [] then []
    else (if Key(ms[0]) == k then [ms[0]] else []) + WithKey(ms[1..], k)
  }

  /** x placed in front of the first element whose key is not below its own */
  function Insert(x: Message, s: seq<Message>): (r: seq<Message>)
    ensures multiset(r) == multiset(s) + multiset{x}
  {
    if s == [] || LexLe(Key(x), Key(s[0])) then [x] + s
    else
      assert s == [s[0]] + s[1..];
      [s[0]] + Insert(x, s[1..])
  }

  /** Python's `sorted(messages, key=lambda x: x.get('timestamp', ''))`, as an insertion sort */
  function SortByTimestamp(ms: seq<Message>): (r: seq<Message>)
    ensures multiset(r) == multiset(ms)
  {
    if ms == [] then []
    else
      assert ms == [ms[0]] + ms[1..];
      Insert(ms[0], SortByTimestamp(ms[1..]))
  }

  lemma {:induction false} InsertSorted(x: Message, s: seq<Message>)
    requires Sorted(s)
    ensures Sorted(Insert(x, s))
  {
    if s == [] || LexLe(Key(x), Key(s[0])) {
      var r := [x] + s;
      forall i, j | 0 <= i < j < |r| ensures LexLe(Key(r[i]), Key(r[j])) {
        assert r[j] == s[j - 1];
        if i == 0 {
          if j > 1 { LexLeTransitive(Key(x), Key(s[0]), Key(s[j - 1])); }
        } else {
          assert r[i] == s[i - 1];
        }
      }
    } else {
      LexLeTotal(Key(x), Key(s[0]));
      InsertSorted(x, s[1..]);
      var r := Insert(x, s);
      var t := Insert(x, s[1..]);
      assert r == [s[0]] + t;
      assert multiset(t) == multiset(s[1..]) + multiset{x};
      forall j | 0 <= j < |t| ensures LexLe(Key(s[0]), Key(t[j])) {
        assert t[j] in multiset(t);
        if t[j] == x {
        } else {
          assert t[j] in multiset(s[1..]);
          var k :| 1 <= k < |s| && s[k] == t[j];
        }
      }
    }
  }

  /** The output is ordered by key */
  lemma {:induction false} SortSorted(ms: seq<Message>)
    ensures Sorted(SortByTimestamp(ms))
  {
    if ms != [] {
      SortSorted(ms[1..]);
      InsertSorted(ms[0], SortByTimestamp(ms[1..]));
    }
  }

  /** Inserting x adds it in front of the messages with its key and leaves the others' order alone */
  lemma {:induction false} InsertWithKey(x: Message, s: seq<Message>, k: string)
    ensures WithKey(Insert(x, s), k) == (if Key(x) == k then [x] else []) + WithKey(s, k)
  {
    if s == [] || LexLe(Key(x), Key(s[0])) {
      assert ([x] + s)[1..] == s;
    } else {
      LexLeReflexive(Key(x));
      assert Key(s[0]) != Key(x);
      InsertWithKey(x, s[1..], k);
      assert ([s[0]] + Insert(x, s[1..]))[1..] == Insert(x, s[1..]);
    }
  }

  /** Stability: for every key, the messages with that key keep their relative order */
  lemma {:induction false} SortStable(ms: seq<Message>, k: string)
    ensures WithKey(SortByTimestamp(ms), k) == WithKey(ms, k)
  {
    if ms != [] {
      SortStable(ms[1..], k);
      InsertWithKey(ms[0], SortByTimestamp(ms[1..]), k);
    }
  }

  /** Stability for all keys at once */
  lemma SortStableAll(ms: seq<Message>)
    ensures forall k :: WithKey(SortByTimestamp(ms), k) == WithKey(ms, k)
  {
    forall k ensures WithKey(SortByTimestamp(ms), k) == WithKey(ms, k) {
      SortStable(ms, k);
    }
  }

  /** Messages without a timestamp come first: only empty keys precede them */
  lemma SortMissingTimestampsFirst(ms: seq<Message>, i: nat, j: nat)
    requires i < j < |SortByTimestamp(ms)| && SortByTimestamp(ms)[j].timestamp.None?
    ensures Key(SortByTimestamp(ms)[i]) == ""
  {
    SortSorted(ms);
    LexLeAntisymmetric(Key(SortByTimestamp(ms)[i]), "");
  }

  /** A sorted and stable arrangement is unique: these two properties determine the output of `sorted` */
  lemma {:induction false} SortedStableUnique(a: seq<Message>, b: seq<Message>)
    requires Sorted(a) && Sorted(b)
    requires forall k :: WithKey(a, k) == WithKey(b, k)
    ensures a == b
    decreases |a|
  {
    assert a != [] ==> WithKey(b, Key(a[0])) != [];
    assert b != [] ==> WithKey(a, Key(b[0])) != [];
    if a != [] && b != [] {
      var ka, kb := Key(a[0]), Key(b[0]);
      KeyOccurs(b, ka);
      KeyOccurs(a, kb);
      assert ka == kb by { LexLeAntisymmetric(ka, kb); }
      assert a[0] == b[0] by { assert WithKey(a, ka)[0] == a[0] && WithKey(b, ka)[0] == b[0]; }
      forall k ensures WithKey(a[1..], k) == WithKey(b[1..], k) {
        var front := if k == ka then [a[0]] else [];
        assert WithKey(a, k) == front + WithKey(a[1..], k);
        assert WithKey(b, k) == front + WithKey(b[1..], k);
        assert WithKey(a[1..], k) == (front + WithKey(a[1..], k))[|front|..];
        assert WithKey(b[1..], k) == (front + WithKey(b[1..], k))[|front|..];
      }
      SortedStableUnique(a[1..], b[1..]);
      assert a == [a[0]] + a[1..] && b == [b[0]] + b[1..];
    }
  }

  /** In a sorted sequence, the first key is below every key whose messages are present */
  lemma {:induction false} KeyOccurs(s: seq<Message>, k: string)
    requires Sorted(s) && s != [] && WithKey(s, k) != []
    ensures LexLe(Key(s[0]), k)
  {
    var i := FindKey(s, k);
    if i == 0 { LexLeReflexive(k); }
  }

  /** The position of some message with key k */
  lemma {:induction false} FindKey(s: seq<Message>, k: string) returns (i: nat)
    requires WithKey(s, k) != []
    ensures i < |s| && Key(s[i]) == k
  {
    if Key(s[0]) == k {
      i := 0;
    } else {
      var j := FindKey(s[1..], k);
      i := j + 1;
    }
  }

  /** `isinstance(messages, list)`: a list session is sorted, any other value passed through */
  function SortSession(v: Session): (r: Session)
    ensures v.Opaque? ==> r == v
    ensures v.Messages? ==> r.Messages? && Sorted(r.messages) && multiset(r.messages) == multiset(v.messages)
    ensures v.Messages? ==> forall k :: WithKey(r.messages, k) == WithKey(v.messages, k)
  {
    match v
    case Messages(ms) => SortSorted(ms); SortStableAll(ms); Messages(SortByTimestamp(ms))
    case Opaque(_) => v
  }

  /** `sort_messages_by_timestamp`: every session in the order of the input, with the same ids */
  method SortMessagesByTimestamp(data: Dict<Session>) returns (sorted: Dict<Session>)
    ensures Keys(sorted) == Keys(data)
    ensures forall i :: 0 <= i < |data| ==> sorted[i].1 == SortSession(data[i].1)
  {
    sorted := [];
    var i := 0;
    while i < |data|
      invariant 0 <= i <= |data|
      invariant |sorted| == i
      invariant forall k :: 0 <= k < i ==> sorted[k].0 == data[k].0 && sorted[k].1 == SortSession(data[k].1)
    {
      var (id, messages) := data[i];
      if messages.Messages? {
        sorted := sorted + [(id, Messages(SortByTimestamp(messages.messages)))];
      } else {
        sorted := sorted + [(id, messages)];
      }
      i := i + 1;
    }
  }
}
