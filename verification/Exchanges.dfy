// Exchanges: topic patterns, bindings and routing.
module Exchanges {
  import opened Bytes

  const DOT: byte := 0x2E
  const STAR: Octets := [0x2A]
  const HASH: Octets := [0x23]

  // Dot-separated words.

  function Split(s: Octets): (words: seq<Octets>)
    ensures |words| >= 1
  {
    if s == [] then [[]]
    else
      var rest := Split(s[1..]);
      if s[0] == DOT then [[]] + rest else [[s[0]] + rest[0]] + rest[1..]
  }

  function Join(words: seq<Octets>): Octets
    requires |words| >= 1
  {
    if |words| == 1 then words[0] else words[0] + [DOT] + Join(words[1..])
  }

  /** Splitting yields the words of the string: none contains a dot, and joining undoes it. */
  lemma {:induction false} SplitIsWords(s: Octets)
    ensures Join(Split(s)) == s
    ensures forall w <- Split(s) :: DOT !in w
  {
    if s != [] {
      SplitIsWords(s[1..]);
      var rest := Split(s[1..]);
      assert s == [s[0]] + s[1..];
      if s[0] == DOT {
        assert ([[]] + rest)[1..] == rest;
      } else {
        assert ([[s[0]] + rest[0]] + rest[1..])[1..] == rest[1..];
        assert DOT !in [s[0]] + rest[0];
        if |rest| > 1 {
          assert [s[0]] + (rest[0] + [DOT] + Join(rest[1..]))
              == ([s[0]] + rest[0]) + [DOT] + Join(rest[1..]);
        }
      }
    }
  }

  lemma {:induction false} NoDotIsOneWord(s: Octets)
    requires DOT !in s
    ensures Split(s) == [s]
  {
    if s != [] {
      NoDotIsOneWord(s[1..]);
      assert s == [s[0]] + s[1..];
    }
  }

  // Topic matching.

  /** `*` stands for exactly one word, `#` for any number of words. */
  ghost predicate Matches(pattern: seq<Octets>, key: seq<Octets>)
    decreases |pattern| + |key|
  {
    if pattern == [] then key == []
    else if pattern[0] == HASH then
      Matches(pattern[1..], key) || (key != [] && Matches(pattern, key[1..]))
    else
      && key != []
      && (pattern[0] == STAR || pattern[0] == key[0])
      && Matches(pattern[1..], key[1..])
  }

  /** A pattern in two parts matches the keys that can be cut to match part by part. */
  lemma {:induction false} MatchesInParts(p: seq<Octets>, q: seq<Octets>, key: seq<Octets>)
    ensures Matches(p + q, key)
       <==> exists i :: 0 <= i <= |key| && Matches(p, key[..i]) && Matches(q, key[i..])
    decreases |p| + |key|
  {
    if p == [] {
      assert p + q == q && key[..0] == [] && key[0..] == key;
    } else {
      assert (p + q)[0] == p[0] && (p + q)[1..] == p[1..] + q;
      if p[0] == HASH {
        MatchesInParts(p[1..], q, key);
      }
      if key != [] {
        if p[0] == HASH {
          MatchesInParts(p, q, key[1..]);
        } else {
          MatchesInParts(p[1..], q, key[1..]);
        }
        assert key[1..][..0] == [] && key[1..][0..] == key[1..];
        forall i | 0 < i <= |key|
          ensures key[..i][1..] == key[1..][..i - 1] && key[i..] == key[1..][i - 1..]
        {
        }
        forall i | 0 <= i < |key|
          ensures key[1..][..i] == key[..i + 1][1..] && key[1..][i..] == key[i + 1..]
        {
        }
      }
    }
  }

  lemma {:induction false} HashMatchesAll(key: seq<Octets>)
    ensures Matches([HASH], key)
  {
    if key != [] {
      HashMatchesAll(key[1..]);
    }
  }

  lemma OneWordMatches(w: Octets, key: seq<Octets>)
    requires w != HASH
    ensures Matches([w], key) <==> |key| == 1 && (w == STAR || w == key[0])
  {
    if |key| == 1 {
      assert [w][1..] == [] && key[1..] == [];
    }
  }

  /** A pattern that ends in `#` matches whatever starts with a match of the rest. */
  lemma EndsInHash(p: seq<Octets>, key: seq<Octets>)
    ensures Matches(p + [HASH], key) <==> exists i :: 0 <= i <= |key| && Matches(p, key[..i])
  {
    MatchesInParts(p, [HASH], key);
    forall i | 0 <= i <= |key|
      ensures Matches([HASH], key[i..])
    {
      HashMatchesAll(key[i..]);
    }
  }

  lemma LastWordHash(p: seq<Octets>, key: seq<Octets>)
    ensures Matches(p + [HASH], key)
       <==> Matches(p, key) || (key != [] && Matches(p + [HASH], key[..|key| - 1]))
  {
    hide Matches;
    EndsInHash(p, key);
    var n := |key|;
    assert key[..n] == key;
    if n > 0 {
      var short := key[..n - 1];
      EndsInHash(p, short);
      forall i | 0 <= i < n
        ensures Matches(p, short[..i]) <==> Matches(p, key[..i])
      {
        assert short[..i] == key[..i];
      }
    }
  }

  lemma LastWordOne(p: seq<Octets>, w: Octets, key: seq<Octets>)
    requires w != HASH
    ensures Matches(p + [w], key)
       <==> key != [] && Matches(p, key[..|key| - 1]) && (w == STAR || w == key[|key| - 1])
  {
    MatchesInParts(p, [w], key);
    forall i | 0 <= i <= |key|
      ensures Matches([w], key[i..]) <==> i == |key| - 1 && (w == STAR || w == key[i])
    {
      OneWordMatches(w, key[i..]);
    }
    hide Matches;
  }

  lemma {:induction false} WordsMatchThemselves(words: seq<Octets>)
    ensures Matches(words, words)
  {
    if words != [] {
      WordsMatchThemselves(words[1..]);
      if words[0] == HASH {
        assert [HASH] + words[1..] == words;
        MatchesInParts([HASH], words[1..], words);
        HashMatchesAll(words[..1]);
      }
    }
  }

  /** One row of the table: which prefixes of the key the pattern words so far match. */
  ghost predicate IsRow(row: seq<bool>, pattern: seq<Octets>, key: seq<Octets>, upTo: nat) {
    && |row| == |key| + 1 && upTo <= |row|
    && forall j :: 0 <= j < upTo ==> (row[j] <==> Matches(pattern, key[..j]))
  }

  /**
   * Topic matching by a table of two rows. It computes the wildcard relation for every
   * pattern and every key, whichever of its fast paths is taken.
   */
  method TopicMatches(pattern: Octets, routingKey: Octets) returns (matched: bool)
    ensures matched <==> Matches(Split(pattern), Split(routingKey))
  {
    if pattern == routingKey {
      WordsMatchThemselves(Split(pattern));
      return true;
    }
    if pattern == HASH {
      HashMatchesAll(Split(routingKey));
      NoDotIsOneWord(HASH);
      return true;
    }
    var pat := Split(pattern);
    var key := Split(routingKey);
    var kn := |key|;
    var prev := new bool[kn + 1](_ => false);
    prev[0] := true;
    for i := 0 to |pat|
      invariant fresh(prev) && IsRow(prev[..], pat[..i], key, kn + 1)
    {
      var curr := NextRow(pat[..i], pat[i], key, prev);
      assert pat[..i] + [pat[i]] == pat[..i + 1];
      prev := curr;
    }
    assert pat[..|pat|] == pat && key[..kn] == key;
    matched := prev[kn];
    assert prev[..][kn] == prev[kn];
  }

  /** The row after one more pattern word, filled left to right. */
  method NextRow(ghost before: seq<Octets>, segment: Octets, key: seq<Octets>, prev: array<bool>)
    returns (curr: array<bool>)
    requires IsRow(prev[..], before, key, |key| + 1)
    ensures fresh(curr) && IsRow(curr[..], before + [segment], key, |key| + 1)
  {
    var kn := |key|;
    curr := new bool[kn + 1](_ => false);
    ghost var p := prev[..];
    if segment == HASH {
      for j := 0 to kn + 1
        invariant p == prev[..] && IsRow(curr[..], before + [segment], key, j)
        invariant forall l :: j <= l <= kn ==> !curr[l]
      {
        RowEntry(before, segment, key, j);
        if prev[j] {
          curr[j] := true;
        }
        if j > 0 && curr[j - 1] {
          curr[j] := true;
        }
      }
    } else {
      RowEntry(before, segment, key, 0);
      for j := 1 to kn + 1
        invariant p == prev[..] && IsRow(curr[..], before + [segment], key, j)
        invariant forall l :: j <= l <= kn ==> !curr[l]
      {
        RowEntry(before, segment, key, j);
        if segment == STAR {
          if prev[j - 1] {
            curr[j] := true;
          }
        } else if prev[j - 1] && segment == key[j - 1] {
          curr[j] := true;
        }
      }
    }
  }

  lemma RowEntry(p: seq<Octets>, w: Octets, key: seq<Octets>, j: nat)
    requires j <= |key|
    ensures w == HASH ==>
      (Matches(p + [w], key[..j]) <==>
       Matches(p, key[..j]) || (j > 0 && Matches(p + [w], key[..j - 1])))
    ensures w != HASH ==>
      (Matches(p + [w], key[..j]) <==>
       j > 0 && Matches(p, key[..j - 1]) && (w == STAR || w == key[j - 1]))
  {
    if w == HASH {
      LastWordHash(p, key[..j]);
    } else {
      LastWordOne(p, w, key[..j]);
    }
    if j > 0 {
      assert key[..j][..j - 1] == key[..j - 1];
    }
  }

  // Bindings and routing.

  datatype ExchangeType = Direct | Fanout | Topic | Headers

  datatype HeadersMatch =
    | All(required: map<Octets, Octets>)
    | Any(required: map<Octets, Octets>)

  datatype Binding =
    Binding(queueName: Octets, routingKey: Octets, headersMatch: Option<HeadersMatch>)

  predicate SameTarget(a: Binding, b: Binding) {
    a.queueName == b.queueName && a.routingKey == b.routingKey
  }

  predicate Bound(bindings: seq<Binding>, b: Binding) {
    exists i :: 0 <= i < |bindings| && SameTarget(bindings[i], b)
  }

  function AddBinding(bindings: seq<Binding>, b: Binding): seq<Binding> {
    if Bound(bindings, b) then bindings else bindings + [b]
  }

  /** No two bindings join the same queue by the same key. */
  predicate Distinct(bindings: seq<Binding>) {
    forall i, j :: 0 <= i < j < |bindings| ==> !SameTarget(bindings[i], bindings[j])
  }

  function RemoveBinding(bindings: seq<Binding>, queue: Octets, key: Octets): seq<Binding> {
    if bindings == [] then []
    else
      var rest := RemoveBinding(bindings[1..], queue, key);
      if bindings[0].queueName == queue && bindings[0].routingKey == key then rest
      else [bindings[0]] + rest
  }

  lemma {:induction false} RemoveBindingKeepsOthers(
    bindings: seq<Binding>, queue: Octets, key: Octets)
    ensures forall b :: b in RemoveBinding(bindings, queue, key)
              <==> b in bindings && !(b.queueName == queue && b.routingKey == key)
    ensures Distinct(bindings) ==> Distinct(RemoveBinding(bindings, queue, key))
  {
    if bindings != [] {
      RemoveBindingKeepsOthers(bindings[1..], queue, key);
      if Distinct(bindings) {
        forall b | b in bindings[1..]
          ensures !SameTarget(bindings[0], b)
        {
          var i :| 1 <= i < |bindings| && bindings[i] == b;
        }
      }
    }
  }

  /** Removing undoes adding, unless the binding was there already. */
  lemma RemoveUndoesAdd(bindings: seq<Binding>, b: Binding)
    requires Distinct(bindings)
    ensures Distinct(AddBinding(bindings, b))
    ensures !Bound(bindings, b) ==>
      RemoveBinding(AddBinding(bindings, b), b.queueName, b.routingKey) == bindings
  {
    if !Bound(bindings, b) {
      RemoveLast(bindings, b);
    }
  }

  lemma {:induction false} RemoveLast(bindings: seq<Binding>, b: Binding)
    requires forall i :: 0 <= i < |bindings| ==> !SameTarget(bindings[i], b)
    ensures RemoveBinding(bindings + [b], b.queueName, b.routingKey) == bindings
  {
    if bindings == [] {
      assert ([b])[1..] == [];
    } else {
      assert (bindings + [b])[1..] == bindings[1..] + [b];
      RemoveLast(bindings[1..], b);
    }
  }

  ghost predicate Selects(kind: ExchangeType, b: Binding, key: Octets, headers: map<Octets, Octets>)
  {
    match kind
    case Direct => b.routingKey == key
    case Fanout => true
    case Topic => Matches(Split(b.routingKey), Split(key))
    case Headers =>
      match b.headersMatch
      case None => false
      case Some(All(required)) => forall k <- required :: k in headers && headers[k] == required[k]
      case Some(Any(required)) => exists k :: k in required && k in headers && headers[k] == required[k]
  }

  /** The queues of the selected bindings, in binding order. */
  ghost function Routed(
    kind: ExchangeType, bindings: seq<Binding>, key: Octets, headers: map<Octets, Octets>)
    : seq<Octets>
  {
    if bindings == [] then []
    else
      var last := |bindings| - 1;
      Routed(kind, bindings[..last], key, headers)
      + if Selects(kind, bindings[last], key, headers) then [bindings[last].queueName] else []
  }

  /** A message is routed to a queue exactly when some binding of that queue selects it. */
  lemma {:induction false} RoutedIffSelected(
    kind: ExchangeType, bindings: seq<Binding>, key: Octets, headers: map<Octets, Octets>, q: Octets)
    ensures q in Routed(kind, bindings, key, headers)
       <==> exists b :: b in bindings && b.queueName == q && Selects(kind, b, key, headers)
  {
    if bindings != [] {
      var last := |bindings| - 1;
      RoutedIffSelected(kind, bindings[..last], key, headers, q);
      assert bindings == bindings[..last] + [bindings[last]];
    }
  }

  class Exchange {
    const kind: ExchangeType
    const durable: bool
    var bindings: seq<Binding>

    constructor (kind: ExchangeType, durable: bool)
      ensures this.kind == kind && this.durable == durable && bindings == []
    {
      this.kind, this.durable, this.bindings := kind, durable, [];
    }

    method Add(b: Binding)
      modifies this
      ensures bindings == AddBinding(old(bindings), b)
    {
      var found := false;
      for i := 0 to |bindings|
        invariant found <==> exists j :: 0 <= j < i && SameTarget(bindings[j], b)
      {
        if bindings[i].queueName == b.queueName && bindings[i].routingKey == b.routingKey {
          found := true;
        }
      }
      if !found {
        bindings := bindings + [b];
      }
    }

    method Remove(queue: Octets, key: Octets)
      modifies this
      ensures bindings == RemoveBinding(old(bindings), queue, key)
    {
      bindings := RemoveBinding(bindings, queue, key);
    }

    method RouteEach(key: Octets, headers: map<Octets, Octets>) returns (visited: seq<Octets>)
      ensures visited == Routed(kind, bindings, key, headers)
    {
      visited := [];
      for i := 0 to |bindings|
        invariant visited == Routed(kind, bindings[..i], key, headers)
      {
        var b := bindings[i];
        assert bindings[..i + 1][..i] == bindings[..i];
        var selected := Select(b, key, headers);
        if selected {
          visited := visited + [b.queueName];
        }
      }
      assert bindings[..|bindings|] == bindings;
    }

    method Select(b: Binding, key: Octets, headers: map<Octets, Octets>) returns (selected: bool)
      ensures selected <==> Selects(kind, b, key, headers)
    {
      match kind
      case Direct =>
        selected := b.routingKey == key;
      case Fanout =>
        selected := true;
      case Topic =>
        selected := TopicMatches(b.routingKey, key);
      case Headers =>
        selected := match b.headersMatch
          case None => false
          case Some(All(required)) =>
            forall k <- required.Keys :: k in headers && headers[k] == required[k]
          case Some(Any(required)) =>
            exists k <- required.Keys :: k in headers && headers[k] == required[k];
    }
  }
}
