/** The Cortex document store: apply, get, delete, and listing in pages. */
module Cortex {
  import opened Common
  import opened CortexNames

  /** A field value; only strings matter for keys. */
  datatype Field = Str(s: string) | Other(code: int)

  type Fields = map<string, Field>

  datatype Document = Document(kind: string, fields: Fields)

  /** What is stored under a key: fields that parse, or bytes that do not. */
  datatype Stored = Readable(fields: Fields) | Unreadable

  datatype CortexError = UnknownKind | Invalid | NotFound | ParseFailed | BadPattern

  /** What Apply reports of a document it took; created: there was none under its key. */
  datatype ApplyResult = ApplyResult(kind: string, name: string, key: string, created: bool)

  /** Panics: a name that is not a string, or that the key encoding rejects. */
  datatype Applied = Done(result: ApplyResult) | Refused(error: CortexError) | Panics

  function NameOf(d: Document): string {
    if "name" in d.fields && d.fields["name"].Str? then d.fields["name"].s else ""
  }

  /** The kind's segments, if the kind is registered. */
  function Lookup(kind: string, from: nat := 0): (r: Option<seq<string>>)
    ensures r.Some? ==> Registered(r.value) && KindName(r.value) == kind
    decreases |KINDS| - from, kind
  {
    if from >= |KINDS| then None
    else if KindName(KINDS[from]) == kind then Some(KINDS[from])
    else Lookup(kind, from + 1)
  }

  /** The fields every kind requires: a name that is present and not empty. Whether the
      other rules of a schema hold is a parameter. */
  predicate NameGiven(f: Fields) { "name" in f && f["name"] != Str("") }

  /** One document applied to the store, which maps encoded keys to values. */
  function ApplyOne(data: map<string, Stored>, d: Document, rulesHold: bool): (map<string, Stored>, Applied) {
    if Lookup(d.kind).None? then (data, Refused(UnknownKind))
    else if !NameGiven(d.fields) || !rulesHold then (data, Refused(Invalid))
    else if !d.fields["name"].Str? || ':' in d.fields["name"].s then (data, Panics)
    else
      var k := Join(Key(Lookup(d.kind).value, NameOf(d)), ':');
      (data[k := Readable(d.fields)], Done(ApplyResult(d.kind, NameOf(d), k, k !in data)))
  }

  /** Get by full name: the key is split, and encoded again by the store. */
  function Get(data: map<string, Stored>, fullName: string): Result<Document, CortexError> {
    var key := ParseFullName(fullName);
    var k := Join(key, ':');
    if k !in data then Err(NotFound)
    else match data[k]
      case Unreadable => Err(ParseFailed)
      case Readable(f) => Ok(Document(InferKind(key), f))
  }

  /** What was applied is what Get returns under the document's full name, and nothing
      else changes for any other full name. */
  lemma GetAfterApply(data: map<string, Stored>, d: Document, rulesHold: bool, other: string)
    requires ApplyOne(data, d, rulesHold).1.Done?
    ensures var data' := ApplyOne(data, d, rulesHold).0;
      && Get(data', FullName(d.kind, NameOf(d))) == Ok(d)
      && (other != FullName(d.kind, NameOf(d)) ==> Get(data', other) == Get(data, other))
  {
    var segs := Lookup(d.kind).value;
    FullNameIsKey(segs, NameOf(d));
    ParseFullNameIff(segs, NameOf(d));
    KindFromKey(segs, NameOf(d));
    JoinSplit(other, ':');
  }

  /** A document's full name, by which Get finds it and listings go on. */
  function FullNameOf(d: Document): string { FullName(d.kind, NameOf(d)) }

  function DocumentAt(key: string, fields: Fields): Document { Document(InferKind(ParseFullName(key)), fields) }

  /** Every readable value lies under the full name of the document it reads as. */
  ghost predicate Named(data: map<string, Stored>) {
    forall k :: k in data && data[k].Readable? ==> FullNameOf(DocumentAt(k, data[k].fields)) == k
  }

  /** Applying a document keeps the store named, and reports its full name as the key. */
  lemma ApplyKeepsNamed(data: map<string, Stored>, d: Document, rulesHold: bool)
    requires Named(data)
    ensures var (data', r) := ApplyOne(data, d, rulesHold);
      && Named(data')
      && (r.Done? ==> r.result.key == FullNameOf(d) && DocumentAt(r.result.key, d.fields) == d)
  {
    if ApplyOne(data, d, rulesHold).1.Done? {
      var segs := Lookup(d.kind).value;
      FullNameIsKey(segs, NameOf(d));
      ParseFullNameIff(segs, NameOf(d));
      KindFromKey(segs, NameOf(d));
    }
  }

  /** A document and whether the rules of its schema hold for it. */
  datatype Submission = Submission(doc: Document, rulesHold: bool)

  function Submit(data: map<string, Stored>, s: Submission): (map<string, Stored>, Applied) {
    ApplyOne(data, s.doc, s.rulesHold)
  }

  // ---- Which documents are taken ----

  /** Kinds are told apart by their names. */
  lemma KindNamesDiffer(a: seq<string>, b: seq<string>)
    requires Registered(a) && Registered(b) && KindName(a) == KindName(b)
    ensures a == b
  {
    CleanKinds(a);
    CleanKinds(b);
    SplitJoin(a, '/');
    SplitJoin(b, '/');
  }

  lemma {:induction false} LookupFrom(segs: seq<string>, i: nat, from: nat)
    requires from <= i < |KINDS| && KINDS[i] == segs
    ensures Lookup(KindName(segs), from) == Some(segs)
    decreases i - from
  {
    assert Registered(segs);
    if KindName(KINDS[from]) == KindName(segs) {
      assert Registered(KINDS[from]);
      KindNamesDiffer(KINDS[from], segs);
    } else {
      LookupFrom(segs, i, from + 1);
    }
  }

  /** Every registered kind is found under its name, and nothing else is. */
  lemma LookupIff(kind: string, segs: seq<string>)
    ensures Lookup(kind) == Some(segs) <==> Registered(segs) && KindName(segs) == kind
  {
    if Registered(segs) && KindName(segs) == kind {
      var i :| 0 <= i < |KINDS| && KINDS[i] == segs;
      LookupFrom(segs, i, 0);
    }
  }

  ghost predicate KnownKind(kind: string) { exists segs :: Registered(segs) && KindName(segs) == kind }

  /** A name that a key can hold. */
  predicate GoodName(f: Fields) {
    "name" in f && f["name"].Str? && f["name"].s != "" && ':' !in f["name"].s
  }

  /** A document is taken iff its kind is registered, its name is a non-empty string
      without a colon and the rules of its schema hold; otherwise the store is unchanged
      and the answer says why: an unknown kind first, then an invalid document, a missing
      or empty name among them; a name that is no string, or has a colon, panics. */
  lemma TakenIff(data: map<string, Stored>, d: Document, rulesHold: bool)
    ensures var (data', r) := ApplyOne(data, d, rulesHold);
      && (r.Done? <==> KnownKind(d.kind) && GoodName(d.fields) && rulesHold)
      && (r == Refused(UnknownKind) <==> !KnownKind(d.kind))
      && (r == Refused(Invalid) <==>
            KnownKind(d.kind) && ("name" !in d.fields || d.fields["name"] == Str("") || !rulesHold))
      && (r == Panics <==>
            KnownKind(d.kind) && rulesHold && "name" in d.fields && d.fields["name"] != Str("") && !GoodName(d.fields))
      && (!r.Done? ==> data' == data)
      && (r.Done? ==> r.result.kind == d.kind && r.result.name == d.fields["name"].s)
      && (r.Done? ==> (r.result.created <==> r.result.key !in data))
      && (r.Done? ==> data' == data[r.result.key := Readable(d.fields)])
  {
    if Lookup(d.kind).Some? {
      assert KnownKind(d.kind);
    } else if KnownKind(d.kind) {
      var segs :| Registered(segs) && KindName(segs) == d.kind;
      LookupIff(d.kind, segs);
    }
  }

  ghost predicate Acceptable(s: Submission) { KnownKind(s.doc.kind) && GoodName(s.doc.fields) && s.rulesHold }

  lemma SubmitIff(data: map<string, Stored>, s: Submission)
    ensures Submit(data, s).1.Done? <==> Acceptable(s)
  {
    TakenIff(data, s.doc, s.rulesHold);
  }

  lemma Unchanged(data: map<string, Stored>, s: Submission)
    requires !Submit(data, s).1.Done?
    ensures Submit(data, s).0 == data
  {
    TakenIff(data, s.doc, s.rulesHold);
  }

  /** The store after a batch all of whose documents are taken. */
  function ApplyAll(data: map<string, Stored>, batch: seq<Submission>): map<string, Stored> {
    if batch == [] then data
    else Submit(ApplyAll(data, batch[..|batch| - 1]), batch[|batch| - 1]).0
  }

  /** The i-th document of the batch is taken in its turn, with this result. */
  ghost predicate TakenAt(data: map<string, Stored>, batch: seq<Submission>, i: nat, r: ApplyResult)
    requires i < |batch|
  {
    Submit(ApplyAll(data, batch[..i]), batch[i]).1 == Done(r)
  }

  ghost predicate AllTaken(data: map<string, Stored>, batch: seq<Submission>, results: seq<ApplyResult>) {
    |results| == |batch| && forall i :: 0 <= i < |batch| ==> TakenAt(data, batch, i, results[i])
  }

  lemma OneMore(data: map<string, Stored>, batch: seq<Submission>, results: seq<ApplyResult>, r: ApplyResult)
    requires |results| < |batch| && AllTaken(data, batch[..|results|], results)
    requires TakenAt(data, batch, |results|, r)
    ensures AllTaken(data, batch[..|results| + 1], results + [r])
  {
    var n := |results|;
    forall i | 0 <= i <= n ensures TakenAt(data, batch[..n + 1], i, (results + [r])[i]) {
      assert batch[..n + 1][..i] == batch[..i];
      if i < n {
        assert batch[..n][..i] == batch[..i];
        assert TakenAt(data, batch[..n], i, results[i]);
      }
    }
  }

  lemma ApplyNext(data: map<string, Stored>, batch: seq<Submission>, i: nat)
    requires i < |batch|
    ensures ApplyAll(data, batch[..i + 1]) == Submit(ApplyAll(data, batch[..i]), batch[i]).0
  {
    assert batch[..i + 1][..i] == batch[..i];
  }

  lemma SubmitKeys(data: map<string, Stored>, s: Submission, r: ApplyResult)
    requires Submit(data, s).1 == Done(r)
    ensures Submit(data, s).0.Keys == data.Keys + {r.key} && (r.created <==> r.key !in data.Keys)
  {
  }

  /** The keys of a store that takes documents one by one. */
  ghost predicate Trail(keys: seq<set<string>>, results: seq<ApplyResult>) {
    && |keys| == |results| + 1
    && forall i :: 0 <= i < |results| ==>
         keys[i + 1] == keys[i] + {results[i].key} && (results[i].created <==> results[i].key !in keys[i])
  }

  lemma {:induction false} TrailKeys(keys: seq<set<string>>, results: seq<ApplyResult>, i: nat, k: string)
    requires Trail(keys, results) && i <= |results|
    ensures k in keys[i] <==> k in keys[0] || exists j :: 0 <= j < i && results[j].key == k
  {
    if i > 0 {
      TrailKeys(keys, results, i - 1, k);
      assert keys[i - 1 + 1] == keys[i - 1] + {results[i - 1].key};
    }
  }

  /** What the results say about the keys: the store ends up with its old keys and those
      reported, and a document counts as created iff neither the old store nor an earlier
      document of the batch had its key. */
  lemma CreatedIff(data: map<string, Stored>, batch: seq<Submission>, results: seq<ApplyResult>)
    requires AllTaken(data, batch, results)
    ensures forall k :: k in ApplyAll(data, batch) <==> k in data || exists j :: 0 <= j < |results| && results[j].key == k
    ensures forall i :: 0 <= i < |results| ==>
      (results[i].created <==> results[i].key !in data && forall j :: 0 <= j < i ==> results[j].key != results[i].key)
  {
    var n := |batch|;
    var keys := BatchTrail(data, batch, results);
    assert batch[..0] == [] && batch[..n] == batch;
    forall k ensures k in keys[n] <==> k in keys[0] || exists j :: 0 <= j < n && results[j].key == k {
      TrailKeys(keys, results, n, k);
    }
    forall i | 0 <= i < n
      ensures results[i].created <==> results[i].key !in keys[0] && forall j :: 0 <= j < i ==> results[j].key != results[i].key
    {
      TrailKeys(keys, results, i, results[i].key);
    }
  }

  lemma BatchTrail(data: map<string, Stored>, batch: seq<Submission>, results: seq<ApplyResult>) returns (keys: seq<set<string>>)
    requires AllTaken(data, batch, results)
    ensures Trail(keys, results) && |batch| == |results|
    ensures forall i :: 0 <= i <= |batch| ==> keys[i] == ApplyAll(data, batch[..i]).Keys
  {
    keys := seq(|batch| + 1, i requires 0 <= i <= |batch| => ApplyAll(data, batch[..i]).Keys);
    forall i | 0 <= i < |batch|
      ensures keys[i + 1] == keys[i] + {results[i].key} && (results[i].created <==> results[i].key !in keys[i])
    {
      ApplyNext(data, batch, i);
      assert TakenAt(data, batch, i, results[i]);
      SubmitKeys(ApplyAll(data, batch[..i]), batch[i], results[i]);
    }
  }

  lemma {:induction false} ApplyAllKeepsNamed(data: map<string, Stored>, batch: seq<Submission>)
    requires Named(data)
    ensures Named(ApplyAll(data, batch))
    decreases |batch|
  {
    if batch != [] {
      var n := |batch| - 1;
      ApplyAllKeepsNamed(data, batch[..n]);
      ApplyKeepsNamed(ApplyAll(data, batch[..n]), batch[n].doc, batch[n].rulesHold);
    }
  }

  /** How far a batch has come: its first documents, all acceptable, made the store. */
  ghost predicate Progress(
      start: map<string, Stored>, batch: seq<Submission>, results: seq<ApplyResult>, data: map<string, Stored>)
  {
    && |results| <= |batch|
    && data == ApplyAll(start, batch[..|results|])
    && AllTaken(start, batch[..|results|], results)
    && (forall s :: s in batch[..|results|] ==> Acceptable(s))
  }

  lemma ProgressNext(
      start: map<string, Stored>, batch: seq<Submission>, results: seq<ApplyResult>, data: map<string, Stored>, r: ApplyResult)
    requires Progress(start, batch, results, data) && |results| < |batch|
    requires Submit(data, batch[|results|]).1 == Done(r)
    ensures Progress(start, batch, results + [r], Submit(data, batch[|results|]).0)
  {
    var i := |results|;
    SubmitIff(data, batch[i]);
    assert TakenAt(start, batch, i, r);
    OneMore(start, batch, results, r);
    ApplyNext(start, batch, i);
    assert batch[..i + 1] == batch[..i] + [batch[i]];
  }

  class CortexStore {
    var data: map<string, Stored>

    constructor ()
      ensures data == map[]
    {
      data := map[];
    }

    /** Validates and writes one document. */
    method ApplyOneDocument(s: Submission) returns (r: Applied)
      modifies this
      ensures (data, r) == Submit(old(data), s)
      ensures r.Done? <==> Acceptable(s)
      ensures Named(old(data)) ==> Named(data)
    {
      ghost var before := data;
      SubmitIff(before, s);
      if Named(before) {
        ApplyKeepsNamed(before, s.doc, s.rulesHold);
      }
      if Lookup(s.doc.kind).None? {
        return Refused(UnknownKind);
      }
      if !NameGiven(s.doc.fields) || !s.rulesHold {
        return Refused(Invalid);
      }
      var name := s.doc.fields["name"];
      if !name.Str? || ':' in name.s {
        return Panics;
      }
      var k := Join(Key(Lookup(s.doc.kind).value, name.s), ':');
      r := Done(ApplyResult(s.doc.kind, name.s, k, k !in data));
      data := data[k := Readable(s.doc.fields)];
    }

    /** Applies documents in order and stops at the first that fails: everything before
        it stays applied and is reported, nothing after it is. */
    method Apply(batch: seq<Submission>) returns (results: seq<ApplyResult>, failure: Option<Applied>)
      modifies this
      ensures |results| <= |batch| && data == ApplyAll(old(data), batch[..|results|])
      ensures AllTaken(old(data), batch[..|results|], results)
      ensures failure.None? <==> |results| == |batch|
      ensures failure.Some? ==> !failure.value.Done? && failure.value == Submit(data, batch[|results|]).1
      ensures forall s :: s in batch[..|results|] ==> Acceptable(s)
      ensures failure.Some? ==> !Acceptable(batch[|results|])
      ensures failure.None? <==> forall s :: s in batch ==> Acceptable(s)
      ensures Named(old(data)) ==> Named(data)
    {
      results := [];
      for i := 0 to |batch|
        invariant |results| == i && Progress(old(data), batch, results, data)
        invariant Named(old(data)) ==> Named(data)
      {
        ghost var before := data;
        var result := ApplyOneDocument(batch[i]);
        if !result.Done? {
          Unchanged(before, batch[i]);
          assert batch[i] in batch;
          return results, Some(result);
        }
        ProgressNext(old(data), batch, results, before, result.result);
        results := results + [result.result];
      }
      assert batch[..|batch|] == batch;
      return results, None;
    }

    method Delete(fullName: string) returns (r: Result<(), CortexError>)
      modifies this
      ensures r.Ok? <==> fullName in old(data)
      ensures data == old(data) - {fullName} && (r.Err? ==> r.error == NotFound && data == old(data))
      ensures Get(data, fullName) == Err(NotFound)
      ensures Named(old(data)) ==> Named(data)
    {
      JoinSplit(fullName, ':');
      var k := Join(ParseFullName(fullName), ':');
      if k !in data {
        assert data - {fullName} == data;
        return Err(NotFound);
      }
      data := data - {k};
      return Ok(());
    }
  }

  // ---- Listing ----

  /** An entry of the key-value store, under its encoded key. */
  datatype Entry = Entry(key: string, value: Stored)

  const DEFAULT_LIMIT := 10

  function ReadableOf(es: seq<Entry>): seq<Entry> {
    if es == [] then [] else (if es[0].value.Readable? then [es[0]] else []) + ReadableOf(es[1..])
  }

  /** The entries behind the one with key from; all of them when from is empty, none
      when there is no such entry. */
  function After(es: seq<Entry>, from: string): seq<Entry> {
    if from == "" then es
    else if es == [] then []
    else if es[0].key == from then es[1..]
    else After(es[1..], from)
  }

  function FirstN<T>(s: seq<T>, n: nat): seq<T> { s[..Min(n, |s|)] }

  /** limit is None for `All`. */
  function Limit(limit: int, all: bool): Option<nat> {
    if all then None else if limit <= 0 then Some(DEFAULT_LIMIT) else Some(limit)
  }

  function Page(es: seq<Entry>, from: string, limit: Option<nat>): seq<Entry> {
    var found := ReadableOf(After(es, from));
    if limit.None? then found else FirstN(found, limit.value)
  }

  predicate EndsWith(s: string, c: char) { s != "" && s[|s| - 1] == c }

  function TrimSuffix(s: string, c: char): string { if EndsWith(s, c) then s[..|s| - 1] else s }

  /** What a pattern such as "creds:*" asks for: "creds". */
  function PrefixOf(pattern: string): string { TrimSuffix(TrimSuffix(pattern, '*'), ':') }

  /** The store's own listing, given all its entries in key order: those below a prefix,
      where the empty prefix is above everything. */
  function Under(store: seq<Entry>, prefix: string): seq<Entry> {
    if store == [] then []
    else (if prefix == "" || prefix + ":" <= store[0].key then [store[0]] else []) + Under(store[1..], prefix)
  }

  /** The documents that entries read as. */
  function Documents(es: seq<Entry>): seq<Document>
    requires forall e :: e in es ==> e.value.Readable?
  {
    seq(|es|, i requires 0 <= i < |es| => assert es[i] in es; DocumentAt(es[i].key, es[i].value.fields))
  }

  lemma DocumentsSplit(a: seq<Entry>, b: seq<Entry>)
    requires forall e :: e in a || e in b ==> e.value.Readable?
    ensures Documents(a + b) == Documents(a) + Documents(b)
  {
  }

  lemma DocumentsFirst(es: seq<Entry>, n: nat)
    requires forall e :: e in es ==> e.value.Readable?
    ensures (forall e :: e in FirstN(es, n) ==> e in es) && Documents(FirstN(es, n)) == FirstN(Documents(es), n)
  {
  }

  lemma {:induction false} AllReadable(es: seq<Entry>)
    ensures forall e :: e in ReadableOf(es) ==> e.value.Readable? && e in es
  {
    if es != [] {
      AllReadable(es[1..]);
    }
  }

  function DocumentPage(es: seq<Entry>, from: string, limit: Option<nat>): seq<Document> {
    AllReadable(After(es, from));
    Documents(Page(es, from, limit))
  }

  /** One page of the documents under a pattern. */
  function Listing(store: seq<Entry>, pattern: string, from: string, limit: Option<nat>): seq<Document> {
    DocumentPage(Under(store, PrefixOf(pattern)), from, limit)
  }

  /** A listing by pattern: the prefix becomes a key, which the store encodes again. */
  method List(store: seq<Entry>, pattern: string, from: string, optLimit: int, all: bool)
    returns (r: Result<seq<Document>, CortexError>)
    ensures r == if EndsWith(pattern, '*')
      then Ok(Listing(store, pattern, from, Limit(optLimit, all))) else Err(BadPattern)
  {
    if !EndsWith(pattern, '*') {
      return Err(BadPattern);
    }
    var prefix := TrimSuffix(pattern, '*');
    prefix := TrimSuffix(prefix, ':');
    var key := ParseFullName(prefix);
    JoinSplit(prefix, ':');
    var docs := ListEntries(Under(store, Join(key, ':')), from, optLimit, all);
    return Ok(docs);
  }

  /** One entry more in front. */
  lemma ReadableStep(es: seq<Entry>, i: nat)
    requires i < |es|
    ensures es[i..] == [es[i]] + es[i + 1..]
    ensures ReadableOf(es[i..]) == (if es[i].value.Readable? then [es[i]] else []) + ReadableOf(es[i + 1..])
  {
  }

  lemma AfterStep(es: seq<Entry>, i: nat, from: string)
    requires i < |es| && from != ""
    ensures After(es[i..], from) == if es[i].key == from then es[i + 1..] else After(es[i + 1..], from)
  {
    assert es[i..][1..] == es[i + 1..];
  }

  /** What is found is a page once it has the limit, or everything is found. */
  lemma FoundPage(es: seq<Entry>, from: string, limit: Option<nat>, found: seq<Entry>, rest: seq<Entry>)
    requires ReadableOf(After(es, from)) == found + rest
    requires if limit.Some? && rest != [] then |found| == limit.value else rest == [] && (limit.Some? ==> |found| <= limit.value)
    ensures found == Page(es, from, limit)
  {
  }

  /** The documents so far are those of the entries found before entry i. */
  ghost predicate Listed(es: seq<Entry>, from: string, i: nat, found: seq<Entry>, docs: seq<Document>)
    requires i <= |es|
  {
    && (forall e :: e in found ==> e.value.Readable?)
    && docs == Documents(found)
    && ReadableOf(After(es, from)) == found + ReadableOf(es[i..])
  }

  lemma ListedNext(es: seq<Entry>, from: string, i: nat, found: seq<Entry>, docs: seq<Document>)
    requires i < |es| && Listed(es, from, i, found, docs)
    ensures if es[i].value.Readable?
      then Listed(es, from, i + 1, found + [es[i]], docs + [DocumentAt(es[i].key, es[i].value.fields)])
      else Listed(es, from, i + 1, found, docs)
  {
    ReadableStep(es, i);
    if es[i].value.Readable? {
      DocumentsSplit(found, [es[i]]);
      Moved(found, [es[i]], ReadableOf(es[i + 1..]));
    }
  }

  lemma ListedPage(es: seq<Entry>, from: string, limit: Option<nat>, i: nat, found: seq<Entry>, docs: seq<Document>)
    requires i <= |es| && Listed(es, from, i, found, docs)
    requires if limit.Some? && i < |es| then |docs| == limit.value else i == |es| && (limit.Some? ==> |docs| <= limit.value)
    ensures docs == DocumentPage(es, from, limit)
  {
    FoundPage(es, from, limit, found, ReadableOf(es[i..]));
  }

  /** The list loop over the entries under a prefix, in the store's order. */
  method ListEntries(es: seq<Entry>, from: string, optLimit: int, all: bool) returns (docs: seq<Document>)
    ensures docs == DocumentPage(es, from, Limit(optLimit, all))
  {
    var limit := if optLimit <= 0 then DEFAULT_LIMIT else optLimit;
    if all {
      limit := -1;
    }
    docs := [];
    ghost var found: seq<Entry> := [];
    var pastFrom := from == "";
    assert es[0..] == es;
    for i := 0 to |es|
      invariant !pastFrom ==> from != "" && docs == [] && found == [] && After(es[i..], from) == After(es, from)
      invariant pastFrom ==> Listed(es, from, i, found, docs)
      invariant limit > 0 ==> |docs| < limit
    {
      if !pastFrom {
        AfterStep(es, i, from);
        if es[i].key == from {
          pastFrom := true;
        }
        continue;
      }
      ListedNext(es, from, i, found, docs);
      if es[i].value.Unreadable? {
        continue;
      }
      docs := docs + [DocumentAt(es[i].key, es[i].value.fields)];
      found := found + [es[i]];
      if limit > 0 && |docs| >= limit {
        ListedPage(es, from, Some(limit), i + 1, found, docs);
        return;
      }
    }
    if !pastFrom {
      assert ReadableOf(After(es, from)) == [] + ReadableOf(es[|es|..]);
    }
    ListedPage(es, from, Limit(optLimit, all), |es|, found, docs);
  }

  lemma Moved<X>(a: seq<X>, b: seq<X>, c: seq<X>)
    ensures a + (b + c) == a + b + c
  {
  }

  /** The store lists different, non-empty keys. */
  predicate Keys(es: seq<Entry>) {
    && (forall i :: 0 <= i < |es| ==> es[i].key != "")
    && forall i, j :: 0 <= i < j < |es| ==> es[i].key != es[j].key
  }

  lemma {:induction false} UnderMember(store: seq<Entry>, prefix: string, e: Entry)
    ensures e in Under(store, prefix) <==> e in store && (prefix == "" || prefix + ":" <= e.key)
  {
    if store != [] {
      UnderMember(store[1..], prefix, e);
      assert store == [store[0]] + store[1..];
    }
  }

  lemma {:induction false} UnderKeys(store: seq<Entry>, prefix: string)
    requires Keys(store)
    ensures Keys(Under(store, prefix))
  {
    if store != [] {
      UnderKeys(store[1..], prefix);
      var rest := Under(store[1..], prefix);
      forall i | 0 <= i < |rest| ensures rest[i].key != store[0].key {
        UnderMember(store[1..], prefix, rest[i]);
      }
    }
  }

  /** A pattern of whole segments lists exactly the entries whose keys go on behind them:
      "genx:a:*" lists "genx:a:b", but neither "genx:a" nor "genx:ab". */
  lemma ListedIff(store: seq<Entry>, segs: seq<string>, e: Entry)
    requires segs != [] && Join(segs, ':') != "" && forall s :: s in segs ==> ':' !in s
    ensures PrefixOf(Join(segs, ':') + ":*") == Join(segs, ':')
    ensures e in Under(store, Join(segs, ':')) <==> e in store && segs < ParseFullName(e.key)
  {
    var p := Join(segs, ':');
    assert TrimSuffix(p + ":*", '*') == p + ":" && TrimSuffix(p + ":", ':') == p;
    UnderMember(store, p, e);
    PrefixIff(segs, e.key, ':');
  }

  /** n pages, each asked for from the key of the last entry of the one before. */
  function Chain(page: string -> seq<Entry>, from: string, n: nat): seq<Entry>
    decreases n
  {
    if n == 0 then []
    else
      var p := page(from);
      if p == [] then [] else p + Chain(page, p[|p| - 1].key, n - 1)
  }

  function PageOf(es: seq<Entry>, limit: nat): string -> seq<Entry> { f => Page(es, f, Some(limit)) }

  function Pages(es: seq<Entry>, from: string, n: nat, limit: nat): seq<Entry> {
    Chain(PageOf(es, limit), from, n)
  }

  lemma {:induction false} ReadableIn(es: seq<Entry>, i: nat)
    requires i < |ReadableOf(es)|
    ensures ReadableOf(es)[i] in es
  {
    if es[0].value.Readable? {
      if i > 0 { ReadableIn(es[1..], i - 1); }
    } else {
      ReadableIn(es[1..], i);
    }
  }

  /** Going on behind a readable entry leaves exactly the readable entries after it. */
  lemma {:induction false} AfterReadable(es: seq<Entry>, i: nat)
    requires Keys(es) && i < |ReadableOf(es)|
    ensures ReadableOf(After(es, ReadableOf(es)[i].key)) == ReadableOf(es)[i + 1..]
  {
    var r := ReadableOf(es);
    ReadableIn(es, i);
    assert r[i].key != "";
    if es[0].value.Readable? && i == 0 {
      assert r[0] == es[0];
    } else {
      var j := if es[0].value.Readable? then i - 1 else i;
      assert r[i] == ReadableOf(es[1..])[j] && r[i + 1..] == ReadableOf(es[1..])[j + 1..];
      ReadableIn(es[1..], j);
      assert es[0].key != r[i].key;
      AfterReadable(es[1..], j);
    }
  }

  /** What a listing from a key has still to show. */
  function Rest(es: seq<Entry>, from: string): seq<Entry> { ReadableOf(After(es, from)) }

  /** A key behind which the listing shows all readable entries from some point on. */
  ghost predicate Resumable(es: seq<Entry>, from: string) { exists k :: ResumesAt(es, from, k) }

  ghost predicate ResumesAt(es: seq<Entry>, from: string, k: nat) {
    k <= |ReadableOf(es)| && Rest(es, from) == ReadableOf(es)[k..]
  }

  /** The last key of a page leads to what the page left. */
  lemma PageStep(es: seq<Entry>, from: string, limit: nat)
    requires Keys(es) && Resumable(es, from)
    ensures var p := FirstN(Rest(es, from), limit);
      p != [] ==>
        Resumable(es, p[|p| - 1].key) && Rest(es, p[|p| - 1].key) == Rest(es, from)[|p|..]
  {
    var r, p := ReadableOf(es), FirstN(Rest(es, from), limit);
    var k: nat :| ResumesAt(es, from, k);
    if p != [] {
      assert p[|p| - 1] == r[k + |p| - 1];
      AfterReadable(es, k + |p| - 1);
      assert r[k..][|p|..] == r[k + |p|..];
      assert ResumesAt(es, p[|p| - 1].key, k + |p|);
    }
  }

  /** A string of entries cut into n pages. */
  function Chunks(rest: seq<Entry>, n: nat, limit: nat): seq<Entry>
    decreases n
  {
    if n == 0 then []
    else
      var p := FirstN(rest, limit);
      if p == [] then [] else p + Chunks(rest[|p|..], n - 1, limit)
  }

  lemma {:induction false} ChunksAre(rest: seq<Entry>, n: nat, limit: nat)
    requires 0 < limit
    ensures Chunks(rest, n, limit) == FirstN(rest, n * limit)
    decreases n
  {
    if n > 0 {
      var p := FirstN(rest, limit);
      ChunksAre(rest[|p|..], n - 1, limit);
      assert n * limit == limit + (n - 1) * limit && 0 <= (n - 1) * limit;
      FirstNSplit(rest, limit, (n - 1) * limit);
    }
  }

  /** The last key of every page from a good key is good, and leads to what the page left. */
  ghost predicate Continues(page: string -> seq<Entry>, rest: string -> seq<Entry>, good: string -> bool, limit: nat) {
    forall f :: good(f) ==> ContinuesAt(page, rest, good, limit, f)
  }

  ghost predicate ContinuesAt(
      page: string -> seq<Entry>, rest: string -> seq<Entry>, good: string -> bool, limit: nat, f: string) {
    && page(f) == FirstN(rest(f), limit)
    && (page(f) != [] ==>
          good(page(f)[|page(f)| - 1].key) && rest(page(f)[|page(f)| - 1].key) == rest(f)[|page(f)|..])
  }

  /** Then the chain of pages is what is left, cut into pages. */
  lemma {:induction false} ChainIsChunks(
      page: string -> seq<Entry>, rest: string -> seq<Entry>, good: string -> bool, from: string, n: nat, limit: nat)
    requires good(from) && Continues(page, rest, good, limit)
    ensures Chain(page, from, n) == Chunks(rest(from), n, limit)
    decreases n
  {
    assert ContinuesAt(page, rest, good, limit, from);
    if n > 0 && page(from) != [] {
      ChainIsChunks(page, rest, good, page(from)[|page(from)| - 1].key, n - 1, limit);
    }
  }

  function RestOf(es: seq<Entry>): string -> seq<Entry> { f => Rest(es, f) }
  ghost function ResumableOf(es: seq<Entry>): string -> bool { f => Resumable(es, f) }

  lemma PagesContinue(es: seq<Entry>, limit: nat)
    requires Keys(es)
    ensures Continues(PageOf(es, limit), RestOf(es), ResumableOf(es), limit)
  {
    forall f | ResumableOf(es)(f)
      ensures ContinuesAt(PageOf(es, limit), RestOf(es), ResumableOf(es), limit, f)
    {
      PageStep(es, f, limit);
    }
  }

  lemma FirstNSplit<T>(s: seq<T>, a: nat, b: nat)
    ensures FirstN(s, a + b) == FirstN(s, a) + FirstN(s[|FirstN(s, a)|..], b)
  {
  }

  /** Chained pages visit the readable entries once each and in order, whatever the
      limit, skipping what does not parse; enough pages visit them all. */
  lemma PagingComplete(es: seq<Entry>, n: nat, limit: nat)
    requires Keys(es) && 0 < limit
    ensures Pages(es, "", n, limit) == FirstN(ReadableOf(es), n * limit)
    ensures n * limit >= |ReadableOf(es)| ==> Pages(es, "", n, limit) == ReadableOf(es)
  {
    assert ReadableOf(es)[0..] == ReadableOf(es) && ResumesAt(es, "", 0);
    PagesContinue(es, limit);
    assert ResumableOf(es)("");
    ChainIsChunks(PageOf(es, limit), RestOf(es), ResumableOf(es), "", n, limit);
    ChunksAre(ReadableOf(es), n, limit);
  }

  // ---- The same for calls of List ----

  /** Entries as a store keeps them: under the full names of their documents. */
  ghost predicate NamedEntries(store: seq<Entry>) {
    forall e :: e in store && e.value.Readable? ==> FullNameOf(DocumentAt(e.key, e.value.fields)) == e.key
  }

  /** n pages of documents, each asked for from the full name of the last document of the
      one before. */
  function DocumentChain(page: string -> seq<Document>, from: string, n: nat): seq<Document>
    decreases n
  {
    if n == 0 then []
    else
      var p := page(from);
      if p == [] then [] else p + DocumentChain(page, FullNameOf(p[|p| - 1]), n - 1)
  }

  function ListingOf(store: seq<Entry>, pattern: string, limit: nat): string -> seq<Document> {
    f => Listing(store, pattern, f, Some(limit))
  }

  /** n calls of List with one pattern and limit, from the start. */
  function Listings(store: seq<Entry>, pattern: string, n: nat, limit: nat): seq<Document> {
    DocumentChain(ListingOf(store, pattern, limit), "", n)
  }

  /** A page of documents is that of the entries, and its last name the last key. */
  ghost predicate MirrorsAt(docs: string -> seq<Document>, page: string -> seq<Entry>, f: string) {
    && (forall e :: e in page(f) ==> e.value.Readable?)
    && docs(f) == Documents(page(f))
    && (page(f) != [] ==> FullNameOf(docs(f)[|docs(f)| - 1]) == page(f)[|page(f)| - 1].key)
  }

  lemma {:induction false} ChainsMirror(docs: string -> seq<Document>, page: string -> seq<Entry>, from: string, n: nat)
    requires forall f :: MirrorsAt(docs, page, f)
    ensures forall e :: e in Chain(page, from, n) ==> e.value.Readable?
    ensures DocumentChain(docs, from, n) == Documents(Chain(page, from, n))
    decreases n
  {
    assert MirrorsAt(docs, page, from);
    if n > 0 && page(from) != [] {
      var next := page(from)[|page(from)| - 1].key;
      ChainsMirror(docs, page, next, n - 1);
      DocumentsSplit(page(from), Chain(page, next, n - 1));
    }
  }

  lemma LastNamed(es: seq<Entry>, f: string, limit: nat)
    requires NamedEntries(es)
    ensures var p := Page(es, f, Some(limit));
      && (forall e :: e in p ==> e.value.Readable?)
      && (p != [] ==> FullNameOf(Documents(p)[|p| - 1]) == p[|p| - 1].key)
  {
    var p := Page(es, f, Some(limit));
    AllReadable(After(es, f));
    if p != [] {
      assert p[|p| - 1] in After(es, f);
      AfterIn(es, f, p[|p| - 1]);
    }
  }

  lemma UnderNamed(store: seq<Entry>, prefix: string)
    requires NamedEntries(store)
    ensures NamedEntries(Under(store, prefix))
  {
    forall e | e in Under(store, prefix) ensures e in store {
      UnderMember(store, prefix, e);
    }
  }

  lemma ListingsArePages(store: seq<Entry>, pattern: string, n: nat, limit: nat)
    requires NamedEntries(store)
    ensures var pages := Pages(Under(store, PrefixOf(pattern)), "", n, limit);
      (forall e :: e in pages ==> e.value.Readable?) && Listings(store, pattern, n, limit) == Documents(pages)
  {
    var es := Under(store, PrefixOf(pattern));
    UnderNamed(store, PrefixOf(pattern));
    forall f: string ensures MirrorsAt(ListingOf(store, pattern, limit), PageOf(es, limit), f) {
      LastNamed(es, f, limit);
    }
    ChainsMirror(ListingOf(store, pattern, limit), PageOf(es, limit), "", n);
  }

  lemma {:induction false} AfterIn(es: seq<Entry>, from: string, e: Entry)
    requires e in After(es, from)
    ensures e in es
  {
    if from != "" && es[0].key != from {
      AfterIn(es[1..], from, e);
    }
  }

  /** Pages under a pattern, chained by the last key: complete for any store. */
  lemma PatternPaging(store: seq<Entry>, pattern: string, n: nat, limit: nat)
    requires Keys(store) && 0 < limit
    ensures var es := Under(store, PrefixOf(pattern));
      && Pages(es, "", n, limit) == FirstN(ReadableOf(es), n * limit)
      && (n * limit >= |ReadableOf(es)| ==> Pages(es, "", n, limit) == ReadableOf(es))
  {
    UnderKeys(store, PrefixOf(pattern));
    PagingComplete(Under(store, PrefixOf(pattern)), n, limit);
  }

  lemma FirstDocuments(store: seq<Entry>, pattern: string, n: nat, limit: nat, m: nat)
    requires Keys(store) && NamedEntries(store) && 0 < limit && m == n * limit
    ensures var found := ReadableOf(Under(store, PrefixOf(pattern)));
      (forall e :: e in found ==> e.value.Readable?) && Listings(store, pattern, n, limit) == FirstN(Documents(found), m)
  {
    var es := Under(store, PrefixOf(pattern));
    AllReadable(es);
    PatternPaging(store, pattern, n, limit);
    ListingsArePages(store, pattern, n, limit);
    DocumentsFirst(ReadableOf(es), m);
  }

  /** Paging with List is complete: on a store as Apply keeps it, calls chained by the full
      name of the last document list every readable document under the pattern once, in
      order; n calls with a positive limit give exactly the first n * limit. */
  lemma ListingComplete(store: seq<Entry>, pattern: string, n: nat, limit: nat)
    requires Keys(store) && NamedEntries(store) && 0 < limit
    ensures var found := ReadableOf(Under(store, PrefixOf(pattern)));
      && (forall e :: e in found ==> e.value.Readable?)
      && Listings(store, pattern, n, limit) == FirstN(Documents(found), n * limit)
      && (n * limit >= |found| ==> Listings(store, pattern, n, limit) == Documents(found))
  {
    FirstDocuments(store, pattern, n, limit, n * limit);
  }

  /** store lists data in the order of keys. */
  ghost predicate Lists(store: seq<Entry>, data: map<string, Stored>) {
    && Keys(store)
    && forall e :: e in store <==> e.key in data && data[e.key] == e.value
  }

  lemma {:induction false} ReadableMember(es: seq<Entry>, e: Entry)
    requires e in es && e.value.Readable?
    ensures e in ReadableOf(es)
  {
    if es[0] != e {
      ReadableMember(es[1..], e);
    }
  }

  lemma {:induction false} FewerFound(store: seq<Entry>, prefix: string)
    ensures |ReadableOf(store)| <= |store| && |Under(store, prefix)| <= |store|
  {
    if store != [] {
      FewerFound(store[1..], prefix);
    }
  }

  lemma ListsNamed(store: seq<Entry>, data: map<string, Stored>)
    requires Lists(store, data) && Named(data)
    ensures NamedEntries(store)
  {
  }

  /** In a named store an entry is found iff its document is among those found. */
  lemma DocumentFoundIff(found: seq<Entry>, e: Entry)
    requires NamedEntries(found) && (forall f :: f in found ==> f.value.Readable?)
    requires e.value.Readable? && FullNameOf(DocumentAt(e.key, e.value.fields)) == e.key
    ensures e in found <==> DocumentAt(e.key, e.value.fields) in Documents(found)
  {
    if i :| 0 <= i < |found| && found[i] == e {
      assert Documents(found)[i] == DocumentAt(e.key, e.value.fields);
    }
    if i :| 0 <= i < |found| && Documents(found)[i] == DocumentAt(e.key, e.value.fields) {
      assert found[i] in found && found[i].key == e.key;
    }
  }

  /** From applying to listing: in a named store, a readable value under a key is on some
      page for a pattern of whole segments, as the document that Get returns for the key,
      iff the key continues the segments. */
  lemma EveryDocumentListed(store: seq<Entry>, data: map<string, Stored>, segs: seq<string>, k: string, n: nat, limit: nat)
    requires Lists(store, data) && Named(data) && 0 < limit && n * limit >= |store|
    requires segs != [] && Join(segs, ':') != "" && forall s :: s in segs ==> ':' !in s
    requires k in data && data[k].Readable?
    ensures Get(data, k) == Ok(DocumentAt(k, data[k].fields))
    ensures segs < ParseFullName(k) <==> Get(data, k).value in Listings(store, Join(segs, ':') + ":*", n, limit)
  {
    var e, es := Entry(k, data[k]), Under(store, Join(segs, ':'));
    JoinSplit(k, ':');
    ListsNamed(store, data);
    ListedIff(store, segs, e);
    FewerFound(store, Join(segs, ':'));
    FewerFound(es, "");
    ListingComplete(store, Join(segs, ':') + ":*", n, limit);
    FoundNamed(store, Join(segs, ':'));
    if e in es {
      ReadableMember(es, e);
    }
    DocumentFoundIff(ReadableOf(es), e);
  }

  lemma FoundNamed(store: seq<Entry>, prefix: string)
    requires NamedEntries(store)
    ensures var found := ReadableOf(Under(store, prefix));
      NamedEntries(found) && forall e :: e in found ==> e.value.Readable? && e in Under(store, prefix)
  {
    AllReadable(Under(store, prefix));
    forall e | e in Under(store, prefix) ensures e in store {
      UnderMember(store, prefix, e);
    }
  }

  /** A page from a key starts right behind the entry with that key, readable or not. */
  lemma {:induction false} PageFrom(es: seq<Entry>, i: nat, limit: Option<nat>)
    requires Keys(es) && i < |es|
    ensures After(es, es[i].key) == es[i + 1..]
    ensures var rest := ReadableOf(es[i + 1..]);
      Page(es, es[i].key, limit) == if limit.None? then rest else FirstN(rest, limit.value)
  {
    assert es[i].key != "";
    if i > 0 {
      assert es[0].key != es[i].key;
      PageFrom(es[1..], i - 1, limit);
    }
  }

  /** A page starts somewhere only if its start is still there: once the entry named by
      From is gone, the listing is empty. */
  lemma {:induction false} VanishedFrom(es: seq<Entry>, from: string, limit: Option<nat>)
    requires from != "" && forall e :: e in es ==> e.key != from
    ensures Page(es, from, limit) == []
  {
    if es != [] {
      VanishedFrom(es[1..], from, limit);
    }
  }
}
