/** What users of the store can rely on: what Get answers, and what the listing options
    mean. */
module CortexLaws {
  import opened Common
  import opened CortexNames
  import opened Cortex

  // ---- What Get answers ----

  /** Get finds exactly what is stored under the name itself; it fails apart for a missing
      and for an unreadable value. */
  lemma GetIff(data: map<string, Stored>, fullName: string)
    ensures Get(data, fullName).Ok? <==> fullName in data && data[fullName].Readable?
    ensures Get(data, fullName).Ok? ==> Get(data, fullName).value.fields == data[fullName].fields
    ensures Get(data, fullName) == Err(NotFound) <==> fullName !in data
    ensures Get(data, fullName) == Err(ParseFailed) <==> fullName in data && data[fullName] == Unreadable
  {
    JoinSplit(fullName, ':');
  }

  /** The kind read off any key: the whole of a short one, two segments of credentials and
      generators, one of anything else. */
  lemma KindOfKey(key: seq<string>)
    requires key != []
    ensures |key| == 1 ==> InferKind(key) == key[0]
    ensures |key| > 1 && key[0] in {"creds", "genx"} ==> InferKind(key) == key[0] + "/" + key[1]
    ensures |key| > 1 && key[0] !in {"creds", "genx"} ==> InferKind(key) == key[0]
  {
  }

  // ---- Listing options ----

  /** Readable entries are found in the store's order, each as often as it is there. */
  lemma {:induction false} FoundInOrder(a: seq<Entry>, b: seq<Entry>)
    ensures ReadableOf(a + b) == ReadableOf(a) + ReadableOf(b)
  {
    if a == [] {
      assert a + b == b;
    } else {
      FoundInOrder(a[1..], b);
      FoundFirst(a);
      FoundFirst(a + b);
      assert (a + b)[1..] == a[1..] + b;
      Moved(if a[0].value.Readable? then [a[0]] else [], ReadableOf(a[1..]), ReadableOf(b));
    }
  }

  lemma FoundFirst(es: seq<Entry>)
    requires es != []
    ensures ReadableOf(es) == (if es[0].value.Readable? then [es[0]] else []) + ReadableOf(es[1..])
  {
  }

  lemma OneFound(e: Entry)
    ensures ReadableOf([e]) == if e.value.Readable? then [e] else []
  {
    assert [e][1..] == [];
  }

  /** All lists every readable document under the pattern; without it at most the limit is
      listed, ten if it is not positive, and fewer only if there are no more. */
  lemma LimitMeans(store: seq<Entry>, pattern: string, optLimit: int)
    ensures var found := ReadableOf(Under(store, PrefixOf(pattern)));
      && (forall e :: e in found ==> e.value.Readable?)
      && Listing(store, pattern, "", Limit(optLimit, true)) == Documents(found)
      && var docs := Listing(store, pattern, "", Limit(optLimit, false));
         docs == Documents(found)[..Min(if optLimit > 0 then optLimit else 10, |found|)]
  {
    var es := Under(store, PrefixOf(pattern));
    AllReadable(es);
    DocumentsFirst(ReadableOf(es), if optLimit > 0 then optLimit else 10);
  }

  /** One final star, and before it at most one colon, is cut off a pattern; the bare star
      lists the whole store. */
  lemma PatternMeans(store: seq<Entry>, prefix: string)
    requires !EndsWith(prefix, ':')
    ensures PrefixOf(prefix + "*") == prefix == PrefixOf(prefix + ":*")
    ensures EndsWith(prefix + "*", '*') && EndsWith(prefix + ":*", '*')
    ensures Under(store, PrefixOf("*")) == store
  {
    assert TrimSuffix(prefix + "*", '*') == prefix;
    assert TrimSuffix(prefix + ":*", '*') == prefix + ":" && TrimSuffix(prefix + ":", ':') == prefix;
    assert TrimSuffix("*", '*') == "";
    WholeStore(store);
  }

  lemma {:induction false} WholeStore(store: seq<Entry>)
    ensures Under(store, "") == store
  {
    if store != [] {
      WholeStore(store[1..]);
    }
  }
}
