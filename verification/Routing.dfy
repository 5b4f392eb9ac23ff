// What routing means: topic patterns by the words they stand for, and each kind of exchange by
// the bindings that take a message.
module Routing {
  import opened Bytes
  import opened Exchanges

  // Topic patterns.

  /** The words that one word of a pattern stands for. */
  predicate StandsFor(word: Octets, part: seq<Octets>) {
    if word == ['#' as int] then true
    else if word == ['*' as int] then |part| == 1
    else part == [word]
  }

  function Joined(parts: seq<seq<Octets>>): seq<Octets> {
    if parts == [] then [] else parts[0] + Joined(parts[1..])
  }

  ghost predicate CutsInto(pattern: seq<Octets>, key: seq<Octets>, parts: seq<seq<Octets>>) {
    && |parts| == |pattern| && Joined(parts) == key
    && forall i :: 0 <= i < |pattern| ==> StandsFor(pattern[i], parts[i])
  }

  lemma CutsFirst(pattern: seq<Octets>, key: seq<Octets>, parts: seq<seq<Octets>>)
    requires pattern != [] && CutsInto(pattern, key, parts)
    ensures StandsFor(pattern[0], parts[0]) && parts[0] <= key
    ensures CutsInto(pattern[1..], key[|parts[0]|..], parts[1..])
  {
    assert key == parts[0] + Joined(parts[1..]);
    hide StandsFor, Joined;
    assert key[|parts[0]|..] == Joined(parts[1..]);
  }

  lemma CutsMore(pattern: seq<Octets>, key: seq<Octets>, part: seq<Octets>, parts: seq<seq<Octets>>)
    requires pattern != [] && StandsFor(pattern[0], part) && CutsInto(pattern[1..], key, parts)
    ensures CutsInto(pattern, part + key, [part] + parts)
  {
    hide StandsFor;
    var all := [part] + parts;
    assert all[1..] == parts;
    forall i | 0 <= i < |pattern| ensures StandsFor(pattern[i], all[i]) {
      if i > 0 { assert pattern[i] == pattern[1..][i - 1]; }
    }
  }

  lemma {:induction false} MatchCuts(pattern: seq<Octets>, key: seq<Octets>) returns (parts: seq<seq<Octets>>)
    requires Matches(pattern, key)
    ensures CutsInto(pattern, key, parts)
    decreases |pattern| + |key|
  {
    parts := [];
    if pattern != [] {
      if pattern[0] == HASH {
        if Matches(pattern[1..], key) {
          parts := MatchCuts(pattern[1..], key);
          CutsMore(pattern, key, [], parts);
          assert [] + key == key;
          parts := [[]] + parts;
        } else {
          parts := MatchCuts(pattern, key[1..]);
          HashTakesOneMore(pattern, key, parts);
          parts := [[key[0]] + parts[0]] + parts[1..];
        }
      } else {
        parts := MatchCuts(pattern[1..], key[1..]);
        CutsMore(pattern, key[1..], [key[0]], parts);
        assert [key[0]] + key[1..] == key;
        parts := [[key[0]]] + parts;
      }
    }
  }

  lemma HashTakesOneMore(pattern: seq<Octets>, key: seq<Octets>, parts: seq<seq<Octets>>)
    requires pattern != [] && pattern[0] == ['#' as int] && key != [] && CutsInto(pattern, key[1..], parts)
    ensures CutsInto(pattern, key, [[key[0]] + parts[0]] + parts[1..])
  {
    CutsFirst(pattern, key[1..], parts);
    var first, rest := parts[0], key[1..][|parts[0]|..];
    CutsMore(pattern, rest, [key[0]] + first, parts[1..]);
    hide CutsInto, Joined;
    assert key[1..] == first + rest;
    assert key == [key[0]] + key[1..];
    assert [key[0]] + first + rest == key;
  }

  lemma {:induction false} CutMatches(pattern: seq<Octets>, key: seq<Octets>, parts: seq<seq<Octets>>)
    requires CutsInto(pattern, key, parts)
    ensures Matches(pattern, key)
    decreases |pattern|
  {
    if pattern != [] {
      CutsFirst(pattern, key, parts);
      var first, rest := parts[0], key[|parts[0]|..];
      CutMatches(pattern[1..], rest, parts[1..]);
      hide CutsInto, Joined;
      assert key == first + rest;
      if pattern[0] == HASH {
        HashPasses(pattern, first, rest);
      } else {
        assert key[0] == first[0] && key[1..] == rest;
      }
    }
  }

  /** `#` passes over any words. */
  lemma {:induction false} HashPasses(pattern: seq<Octets>, words: seq<Octets>, rest: seq<Octets>)
    requires pattern != [] && pattern[0] == HASH && Matches(pattern[1..], rest)
    ensures Matches(pattern, words + rest)
    decreases |words|
  {
    if words == [] {
      assert words + rest == rest;
    } else {
      HashPasses(pattern, words[1..], rest);
      assert (words + rest)[1..] == words[1..] + rest;
    }
  }

  /**
   * A pattern matches a key exactly when the key's words can be cut into one part for each word of
   * the pattern: any words for `#`, a single word for `*`, and the word itself for any other.
   */
  lemma MatchesIffCut(pattern: seq<Octets>, key: seq<Octets>)
    ensures Matches(pattern, key) <==> exists parts :: CutsInto(pattern, key, parts)
  {
    hide Matches, CutsInto;
    if Matches(pattern, key) {
      var parts := MatchCuts(pattern, key);
      assert CutsInto(pattern, key, parts);
    }
    if exists parts :: CutsInto(pattern, key, parts) {
      var parts :| CutsInto(pattern, key, parts);
      CutMatches(pattern, key, parts);
    }
  }

  lemma SplitFirst(s: Octets)
    requires s != []
    ensures var rest := Split(s[1..]);
      |rest| >= 1 && Split(s) == (if s[0] == '.' as int then [[]] + rest else [[s[0]] + rest[0]] + rest[1..])
  {
  }

  lemma FirstOnJoined(first: byte, a: seq<Octets>, b: seq<Octets>)
    requires |a| >= 1
    ensures [[]] + (a + b) == ([[]] + a) + b
    ensures [[first] + (a + b)[0]] + (a + b)[1..] == ([[first] + a[0]] + a[1..]) + b
  {
  }

  lemma Behind(a: Octets, b: Octets)
    requires a != []
    ensures (a + b)[1..] == a[1..] + b && (a + b)[0] == a[0]
  {
  }

  lemma DotFirst(b: Octets)
    ensures Split([] + (['.' as int] + b)) == Split([]) + Split(b)
  {
    var s := [] + (['.' as int] + b);
    SplitFirst(s);
    assert s[1..] == b && s[0] == '.' as int;
    assert Split([]) == [[]];
    hide Split;
  }

  /** Words are what lies between dots: cutting behind a dot cuts the words. */
  lemma {:induction false} DotSeparates(a: Octets, b: Octets)
    ensures Split(a + (['.' as int] + b)) == Split(a) + Split(b)
  {
    hide *;
    if a == [] {
      DotFirst(b);
    } else {
      SplitFirst(a + (['.' as int] + b));
      Behind(a, ['.' as int] + b);
      SplitFirst(a);
      DotSeparates(a[1..], b);
      FirstOnJoined(a[0], Split(a[1..]), Split(b));
    }
  }

  lemma NoDotNoCut(s: Octets)
    requires '.' as int !in s
    ensures Split(s) == [s]
  {
    NoDotIsOneWord(s);
  }

  // Exchanges.

  /** Queues are visited in the order of binding. */
  lemma {:induction false} RoutedJoin(
    kind: ExchangeType, a: seq<Binding>, b: seq<Binding>, key: Octets, headers: map<Octets, Octets>)
    ensures Routed(kind, a + b, key, headers) == Routed(kind, a, key, headers) + Routed(kind, b, key, headers)
    decreases |b|
  {
    hide *;
    if b == [] {
      RoutedNone(kind, key, headers);
      assert a + b == a;
    } else {
      var init, last := b[..|b| - 1], b[|b| - 1];
      RoutedJoin(kind, a, init, key, headers);
      RoutedLast(kind, a + init, last, key, headers);
      RoutedLast(kind, init, last, key, headers);
      assert init + [last] == b && (a + init) + [last] == a + b;
    }
  }

  lemma RoutedNone(kind: ExchangeType, key: Octets, headers: map<Octets, Octets>)
    ensures Routed(kind, [], key, headers) == []
  {
  }

  /** Each binding that takes the message adds its queue. */
  lemma RoutedLast(
    kind: ExchangeType, bindings: seq<Binding>, last: Binding, key: Octets, headers: map<Octets, Octets>)
    ensures Routed(kind, bindings + [last], key, headers)
         == Routed(kind, bindings, key, headers) + if Selects(kind, last, key, headers) then [last.queueName] else []
  {
    assert (bindings + [last])[..|bindings|] == bindings;
    hide Selects;
  }

  /** A direct exchange compares keys, and a fanout exchange takes every binding. */
  lemma DirectAndFanout(bindings: seq<Binding>, key: Octets, headers: map<Octets, Octets>, q: Octets)
    ensures q in Routed(Direct, bindings, key, headers)
       <==> exists b :: b in bindings && b.queueName == q && b.routingKey == key
    ensures q in Routed(Fanout, bindings, key, headers) <==> exists b :: b in bindings && b.queueName == q
  {
    RoutedIffSelected(Direct, bindings, key, headers, q);
    RoutedIffSelected(Fanout, bindings, key, headers, q);
    hide Routed;
  }

  ghost predicate Takes(pattern: Octets, key: Octets) {
    exists parts :: CutsInto(Split(pattern), Split(key), parts)
  }

  /** A topic exchange takes the bindings whose patterns the key can be cut into. */
  lemma TopicRoutes(bindings: seq<Binding>, key: Octets, headers: map<Octets, Octets>, q: Octets)
    ensures q in Routed(Topic, bindings, key, headers)
       <==> exists b :: b in bindings && b.queueName == q && Takes(b.routingKey, key)
  {
    RoutedIffSelected(Topic, bindings, key, headers, q);
    forall b: Binding ensures Selects(Topic, b, key, headers) <==> Takes(b.routingKey, key) {
      MatchesIffCut(Split(b.routingKey), Split(key));
    }
    hide Routed, Takes, Selects;
  }

  predicate Agrees(headers: map<Octets, Octets>, required: map<Octets, Octets>, name: Octets) {
    name in required && name in headers && headers[name] == required[name]
  }

  /** All of the required headers, or one of them; without header arguments, nothing. */
  ghost predicate Wants(b: Binding, headers: map<Octets, Octets>) {
    match b.headersMatch
    case Some(All(required)) => forall name :: name in required ==> Agrees(headers, required, name)
    case Some(Any(required)) => exists name :: Agrees(headers, required, name)
    case None => false
  }

  lemma HeadersSelect(b: Binding, key: Octets, headers: map<Octets, Octets>)
    ensures Selects(Headers, b, key, headers) <==> Wants(b, headers)
  {
    match b.headersMatch
    case Some(Any(required)) =>
      if Wants(b, headers) {
        var name :| Agrees(headers, required, name);
        assert name in required && name in headers && headers[name] == required[name];
      }
      if Selects(Headers, b, key, headers) {
        var name :| name in required && name in headers && headers[name] == required[name];
        assert Agrees(headers, required, name);
      }
    case _ =>
  }

  /** A headers exchange compares the message's headers with what each binding requires. */
  lemma HeadersRoutes(bindings: seq<Binding>, key: Octets, headers: map<Octets, Octets>, q: Octets)
    ensures q in Routed(Headers, bindings, key, headers)
       <==> exists b :: b in bindings && b.queueName == q && Wants(b, headers)
  {
    RoutedIffSelected(Headers, bindings, key, headers, q);
    forall b: Binding ensures Selects(Headers, b, key, headers) <==> Wants(b, headers) {
      HeadersSelect(b, key, headers);
    }
    hide Routed, Wants, Selects;
  }

  /** A binding is added behind the others unless one of the same queue and key is there. */
  lemma AddsIffNew(bindings: seq<Binding>, b: Binding)
    ensures AddBinding(bindings, b)
         == if exists c :: c in bindings && c.queueName == b.queueName && c.routingKey == b.routingKey
            then bindings else bindings + [b]
  {
    if exists c :: c in bindings && c.queueName == b.queueName && c.routingKey == b.routingKey {
      var c :| c in bindings && c.queueName == b.queueName && c.routingKey == b.routingKey;
      var i :| 0 <= i < |bindings| && bindings[i] == c;
      assert SameTarget(bindings[i], b);
    }
  }
}
