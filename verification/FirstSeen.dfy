/** Keeping the first item of every key, in order; items with an empty key are dropped. */
module FirstSeen {
  /** The key of a plain text is the text itself. */
  function SameText(s: string): (t: string) { s }

  predicate HasKey<T>(key: T -> string, s: seq<T>, k: string) {
    exists i :: 0 <= i < |s| && key(s[i]) == k
  }

  /** `s.filter((item, index, list) => key(item) && list.findIndex(same key) === index)`. */
  function FirstBy<T>(key: T -> string, s: seq<T>): (r: seq<T>) {
    if s == [] then []
    else
      var last := |s| - 1;
      FirstBy(key, s[..last]) + if key(s[last]) == "" || HasKey(key, s[..last], key(s[last])) then [] else [s[last]]
  }

  /** Every key is there, and none twice. */
  predicate KeysDistinct<T>(key: T -> string, s: seq<T>) {
    && (forall i | 0 <= i < |s| :: key(s[i]) != "")
    && (forall i, j | 0 <= i < j < |s| :: key(s[i]) != key(s[j]))
  }

  lemma HasKeyAppend<T>(key: T -> string, a: seq<T>, b: seq<T>, k: string)
    ensures HasKey(key, a + b, k) <==> HasKey(key, a, k) || HasKey(key, b, k)
  {
    if HasKey(key, a, k) {
      var i :| 0 <= i < |a| && key(a[i]) == k;
      assert (a + b)[i] == a[i];
    }
    if HasKey(key, b, k) {
      var i :| 0 <= i < |b| && key(b[i]) == k;
      assert (a + b)[|a| + i] == b[i];
    }
  }

  lemma HasKeyOne<T>(key: T -> string, x: T, k: string)
    ensures HasKey(key, [x], k) <==> key(x) == k
  {
    assert [x][0] == x;
  }

  lemma FirstByStep<T>(key: T -> string, s: seq<T>, x: T)
    ensures FirstBy(key, s + [x]) == FirstBy(key, s) + if key(x) == "" || HasKey(key, s, key(x)) then [] else [x]
  {
    assert (s + [x])[..|s|] == s;
  }

  /** No key is lost and none is new. */
  lemma {:induction false} FirstByKeepsKeys<T>(key: T -> string, s: seq<T>, k: string)
    requires k != ""
    ensures HasKey(key, FirstBy(key, s), k) <==> HasKey(key, s, k)
  {
    if s != [] {
      var last := |s| - 1;
      var x := s[last];
      FirstByKeepsKeys(key, s[..last], k);
      assert s == s[..last] + [x];
      HasKeyAppend(key, s[..last], [x], k);
      HasKeyOne(key, x, k);
      HasKeyAppend(key, FirstBy(key, s[..last]), [x], k);
      assert FirstBy(key, s[..last]) + [] == FirstBy(key, s[..last]);
    }
  }

  lemma {:induction false} FirstByDistinct<T>(key: T -> string, s: seq<T>)
    ensures KeysDistinct(key, FirstBy(key, s))
  {
    if s != [] {
      var last := |s| - 1;
      var front := FirstBy(key, s[..last]);
      FirstByDistinct(key, s[..last]);
      if key(s[last]) != "" {
        FirstByKeepsKeys(key, s[..last], key(s[last]));
        assert !HasKey(key, s[..last], key(s[last])) ==> forall i | 0 <= i < |front| :: key(front[i]) != key(s[last]);
      }
    }
  }

  /** `place[i]` is where item `i` of `kept` stood in `s`, the first of its key. */
  ghost predicate FirstPlaces<T>(key: T -> string, s: seq<T>, kept: seq<T>, place: seq<nat>) {
    && |place| == |kept|
    && (forall i | 0 <= i < |place| :: place[i] < |s| && s[place[i]] == kept[i])
    && (forall i, j | 0 <= i < |place| && 0 <= j < place[i] :: key(s[j]) != key(kept[i]))
    && (forall i, j | 0 <= i < j < |place| :: place[i] < place[j])
  }

  lemma FirstPlacesStep<T>(key: T -> string, s: seq<T>, x: T, kept: seq<T>, place: seq<nat>)
    requires FirstPlaces(key, s, kept, place)
    ensures FirstPlaces(key, s + [x], kept, place)
    ensures !HasKey(key, s, key(x)) ==> FirstPlaces(key, s + [x], kept + [x], place + [|s|])
  {
    if !HasKey(key, s, key(x)) {
      assert forall j | 0 <= j < |s| :: key(s[j]) != key(x);
    }
  }

  /** The kept items stand in their old order. */
  lemma {:induction false} FirstByIsFirst<T>(key: T -> string, s: seq<T>) returns (place: seq<nat>)
    ensures FirstPlaces(key, s, FirstBy(key, s), place)
  {
    if s == [] {
      place := [];
    } else {
      var last := |s| - 1;
      place := FirstByIsFirst(key, s[..last]);
      FirstPlacesStep(key, s[..last], s[last], FirstBy(key, s[..last]), place);
      assert s[..last] + [s[last]] == s;
      if key(s[last]) != "" && !HasKey(key, s[..last], key(s[last])) {
        place := place + [last];
      } else {
        assert FirstBy(key, s[..last]) + [] == FirstBy(key, s[..last]);
      }
    }
  }

  /** Filtering in two steps is filtering at once. */
  lemma {:induction false} FirstBySplit<T>(key: T -> string, a: seq<T>, b: seq<T>)
    ensures FirstBy(key, FirstBy(key, a) + b) == FirstBy(key, a + b)
    decreases |b|
  {
    if b == [] {
      assert FirstBy(key, a) + [] == FirstBy(key, a) && a + [] == a;
      FirstByIdempotent(key, a);
    } else {
      var last := |b| - 1;
      var x := b[last];
      assert FirstBy(key, a) + b == (FirstBy(key, a) + b[..last]) + [x];
      assert a + b == (a + b[..last]) + [x];
      FirstByStep(key, FirstBy(key, a) + b[..last], x);
      FirstByStep(key, a + b[..last], x);
      FirstBySplit(key, a, b[..last]);
      if key(x) != "" {
        HasKeyAppend(key, FirstBy(key, a), b[..last], key(x));
        HasKeyAppend(key, a, b[..last], key(x));
        FirstByKeepsKeys(key, a, key(x));
      }
    }
  }

  /** Nothing is added, and if nothing is dropped either, nothing changes. */
  lemma {:induction false} FirstByIsShorter<T>(key: T -> string, s: seq<T>)
    ensures |FirstBy(key, s)| <= |s|
    ensures |FirstBy(key, s)| == |s| ==> FirstBy(key, s) == s
  {
    if s != [] {
      var front, x := s[..|s| - 1], s[|s| - 1];
      FirstByIsShorter(key, front);
      FirstByStep(key, front, x);
      assert front + [x] == s;
    }
  }

  lemma FirstByIdempotent<T>(key: T -> string, s: seq<T>)
    ensures FirstBy(key, FirstBy(key, s)) == FirstBy(key, s)
  {
    FirstByDistinct(key, s);
    FirstByOfDistinct(key, FirstBy(key, s));
  }

  lemma {:induction false} FirstByOfDistinct<T>(key: T -> string, s: seq<T>)
    requires KeysDistinct(key, s)
    ensures FirstBy(key, s) == s
  {
    if s != [] {
      var front, x := s[..|s| - 1], s[|s| - 1];
      LastKeyIsNew(key, s);
      FirstByOfDistinct(key, front);
      FirstByStep(key, front, x);
      assert front + [x] == s;
    }
  }

  lemma LastKeyIsNew<T>(key: T -> string, s: seq<T>)
    requires KeysDistinct(key, s) && s != []
    ensures KeysDistinct(key, s[..|s| - 1])
    ensures key(s[|s| - 1]) != "" && !HasKey(key, s[..|s| - 1], key(s[|s| - 1]))
  {}

  /** Items whose keys are there already add nothing. */
  lemma {:induction false} FirstByAbsorbs<T>(key: T -> string, s: seq<T>, t: seq<T>)
    requires KeysDistinct(key, s)
    requires forall i | 0 <= i < |t| :: key(t[i]) == "" || HasKey(key, s, key(t[i]))
    ensures FirstBy(key, s + t) == s
    decreases |t|
  {
    if t == [] {
      assert s + t == s;
      FirstByOfDistinct(key, s);
    } else {
      var last := |t| - 1;
      FirstByAbsorbs(key, s, t[..last]);
      assert s + t == (s + t[..last]) + [t[last]];
      FirstByStep(key, s + t[..last], t[last]);
      HasKeyAppend(key, s, t[..last], key(t[last]));
      assert s + [] == s;
    }
  }

  /** Filtering the later part first changes nothing either. */
  lemma {:induction false} FirstBySplitRight<T>(key: T -> string, a: seq<T>, b: seq<T>)
    ensures FirstBy(key, a + FirstBy(key, b)) == FirstBy(key, a + b)
    decreases |b|
  {
    if b != [] {
      var last := |b| - 1;
      var x, front := b[last], FirstBy(key, b[..last]);
      FirstBySplitRight(key, a, b[..last]);
      assert a + b == (a + b[..last]) + [x];
      FirstByStep(key, a + b[..last], x);
      assert a + (front + [x]) == (a + front) + [x];
      FirstByStep(key, a + front, x);
      assert front + [] == front;
      if key(x) != "" {
        HasKeyAppend(key, a, b[..last], key(x));
        HasKeyAppend(key, a, front, key(x));
        FirstByKeepsKeys(key, b[..last], key(x));
      }
    }
  }

  /** What is kept of a beginning comes first. */
  lemma {:induction false} FirstByGrows<T>(key: T -> string, a: seq<T>, b: seq<T>)
    ensures FirstBy(key, a) <= FirstBy(key, a + b)
    decreases |b|
  {
    if b == [] {
      assert a + b == a;
    } else {
      var front, x := b[..|b| - 1], b[|b| - 1];
      FirstByGrows(key, a, front);
      FirstByStep(key, a + front, x);
      assert (a + front) + [x] == a + b;
    }
  }
}
