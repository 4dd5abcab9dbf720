/** Names of Cortex documents: kinds, key-value keys, and the colon-separated full names
    between them. */
module CortexNames {
  /** `strings.Join` with a one-character separator. */
  function Join(segs: seq<string>, sep: char): string {
    if segs == [] then ""
    else if |segs| == 1 then segs[0]
    else Join(segs[..|segs| - 1], sep) + [sep] + segs[|segs| - 1]
  }

  /** `strings.Split` at a one-character separator: always at least one segment. */
  function Split(s: string, sep: char): (segs: seq<string>)
    ensures segs != []
  {
    if s == "" then [""]
    else
      var (rest, c) := (Split(s[..|s| - 1], sep), s[|s| - 1]);
      if c == sep then rest + [""] else rest[|rest| - 1 := rest[|rest| - 1] + [c]]
  }

  function ReplaceAll(s: string, from: char, to: char): (r: string)
    ensures |r| == |s|
  {
    seq(|s|, i requires 0 <= i < |s| => if s[i] == from then to else s[i])
  }

  lemma {:induction false} SplitPlain(s: string, sep: char)
    requires sep !in s
    ensures Split(s, sep) == [s]
  {
    if s != "" {
      SplitPlain(s[..|s| - 1], sep);
      assert s == s[..|s| - 1] + [s[|s| - 1]];
    }
  }

  /** A separator behind a string starts a new last segment. */
  lemma {:induction false} SplitAppend(s: string, t: string, sep: char)
    ensures Split(s + [sep] + t, sep) == Split(s, sep) + Split(t, sep)
  {
    var whole := s + [sep] + t;
    if t == "" {
      assert whole[..|whole| - 1] == s;
    } else {
      var t' := t[..|t| - 1];
      assert whole[..|whole| - 1] == s + [sep] + t';
      SplitAppend(s, t', sep);
      var l, r := Split(s, sep), Split(t', sep);
      assert (l + r)[|l + r| - 1] == r[|r| - 1];
      assert t[|t| - 1] != sep ==>
        (l + r)[|l + r| - 1 := r[|r| - 1] + [t[|t| - 1]]] == l + r[|r| - 1 := r[|r| - 1] + [t[|t| - 1]]];
      assert l + (r + [""]) == l + r + [""];
    }
  }

  /** Segments without the separator come back from their joined form. */
  lemma {:induction false} SplitJoin(segs: seq<string>, sep: char)
    requires segs != [] && forall s :: s in segs ==> sep !in s
    ensures Split(Join(segs, sep), sep) == segs
  {
    if |segs| == 1 {
      SplitPlain(segs[0], sep);
    } else {
      var init, last := segs[..|segs| - 1], segs[|segs| - 1];
      SplitJoin(init, sep);
      SplitAppend(Join(init, sep), last, sep);
      SplitPlain(last, sep);
      assert segs == init + [last];
    }
  }

  lemma {:induction false} JoinSplit(s: string, sep: char)
    ensures Join(Split(s, sep), sep) == s
  {
    if s != "" {
      var rest, c := Split(s[..|s| - 1], sep), s[|s| - 1];
      JoinSplit(s[..|s| - 1], sep);
      assert s == s[..|s| - 1] + [c];
      if c == sep {
        assert (rest + [""])[..|rest|] == rest;
      } else {
        JoinLast(rest, c, sep);
      }
    }
  }

  lemma JoinLast(segs: seq<string>, c: char, sep: char)
    requires segs != []
    ensures Join(segs[|segs| - 1 := segs[|segs| - 1] + [c]], sep) == Join(segs, sep) + [c]
  {
    var segs' := segs[|segs| - 1 := segs[|segs| - 1] + [c]];
    assert segs'[..|segs| - 1] == segs[..|segs| - 1];
  }

  /** No segment of a split contains the separator. */
  lemma {:induction false} SplitClean(s: string, sep: char)
    ensures forall t :: t in Split(s, sep) ==> sep !in t
  {
    if s != "" { SplitClean(s[..|s| - 1], sep); }
  }

  lemma {:induction false} JoinAppend(a: seq<string>, b: seq<string>, sep: char)
    requires a != [] && b != []
    ensures Join(a + b, sep) == Join(a, sep) + [sep] + Join(b, sep)
  {
    var init := b[..|b| - 1];
    assert (a + b)[..|a + b| - 1] == a + init;
    if |b| > 1 {
      JoinAppend(a, init, sep);
    } else {
      assert a + init == a;
    }
  }

  /** A joined prefix with a separator behind it is a prefix of the text iff its segments
      come before others in the key: "a:b:" starts "a:b:c" but neither "a:b" nor "a:bc". */
  lemma PrefixIff(segs: seq<string>, key: string, sep: char)
    requires segs != [] && forall s :: s in segs ==> sep !in s
    ensures Join(segs, sep) + [sep] <= key <==> segs < Split(key, sep)
  {
    var p := Join(segs, sep) + [sep];
    if p <= key {
      assert key == Join(segs, sep) + [sep] + key[|p|..];
      SplitAppend(Join(segs, sep), key[|p|..], sep);
      SplitJoin(segs, sep);
    }
    if segs < Split(key, sep) {
      var rest := Split(key, sep)[|segs|..];
      assert Split(key, sep) == segs + rest;
      JoinSplit(key, sep);
      JoinAppend(segs, rest, sep);
    }
  }

  lemma ReplaceNone(s: string, from: char, to: char)
    requires from !in s
    ensures ReplaceAll(s, from, to) == s
  {
    forall i | 0 <= i < |s| ensures s[i] != from {
      assert s[i] in s;
    }
  }

  lemma {:induction false} ReplaceJoin(segs: seq<string>, from: char, to: char)
    requires forall s :: s in segs ==> from !in s
    ensures ReplaceAll(Join(segs, from), from, to) == Join(segs, to)
  {
    if |segs| == 1 {
      ReplaceNone(segs[0], from, to);
    } else if |segs| >= 2 {
      var init, last := segs[..|segs| - 1], segs[|segs| - 1];
      ReplaceJoin(init, from, to);
      ReplaceNone(last, from, to);
      assert ReplaceAll(Join(init, from) + [from] + last, from, to)
        == ReplaceAll(Join(init, from), from, to) + [to] + ReplaceAll(last, from, to);
    }
  }

  // ---- Kinds ----

  /** The registered kinds, as the segments their slashes separate. */
  const KINDS: seq<seq<string>> := [
    ["creds", "openai"], ["creds", "genai"], ["creds", "minimax"], ["creds", "doubaospeech"], ["creds", "dashscope"],
    ["genx", "generator"], ["genx", "tts"], ["genx", "asr"], ["genx", "realtime"], ["genx", "segmentor"],
    ["genx", "profiler"], ["ctx"]]

  predicate Registered(segs: seq<string>) { segs in KINDS }

  function KindName(segs: seq<string>): string { Join(segs, '/') }

  /** The `KeyFunc` of every registered kind: the kind's segments, then the name. */
  function Key(segs: seq<string>, name: string): seq<string> { segs + [name] }

  /** `Document.FullName`, for a document of a kind given as a string. */
  function FullName(kind: string, name: string): string { ReplaceAll(kind, '/', ':') + ":" + name }

  function ParseFullName(name: string): seq<string> { Split(name, ':') }

  function InferKind(key: seq<string>): string {
    if |key| < 2 then Join(key, '/')
    else if key[0] == "creds" then "creds/" + key[1]
    else if key[0] == "genx" then "genx/" + key[1]
    else key[0]
  }

  lemma CleanKinds(segs: seq<string>)
    requires Registered(segs)
    ensures segs != [] && forall s :: s in segs ==> ':' !in s && '/' !in s
    ensures segs == ["ctx"] || (|segs| == 2 && (segs[0] == "creds" || segs[0] == "genx"))
  {
  }

  lemma FullNameIsKey(segs: seq<string>, name: string)
    requires Registered(segs)
    ensures FullName(KindName(segs), name) == Join(Key(segs, name), ':')
  {
    CleanKinds(segs);
    ReplaceJoin(segs, '/', ':');
    assert Key(segs, name)[..|segs|] == segs;
  }

  /** The text of a full name: every segment of the kind and the name, with colons between. */
  lemma FullNameText(segs: seq<string>, name: string)
    requires Registered(segs)
    ensures |segs| == 1 ==> FullName(KindName(segs), name) == segs[0] + ":" + name
    ensures |segs| == 2 ==> FullName(KindName(segs), name) == segs[0] + ":" + segs[1] + ":" + name
    ensures 1 <= |segs| <= 2
  {
    CleanKinds(segs);
    FullNameIsKey(segs, name);
    assert Key(segs, name)[..|segs|] == segs;
    if |segs| == 2 {
      JoinTwo(segs, ':');
    }
  }

  /** For every registered kind: the full name parses to the schema's key exactly when
      the name has no colon. */
  lemma ParseFullNameIff(segs: seq<string>, name: string)
    requires Registered(segs)
    ensures ParseFullName(FullName(KindName(segs), name)) == Key(segs, name) <==> ':' !in name
  {
    CleanKinds(segs);
    FullNameIsKey(segs, name);
    if ':' !in name {
      SplitJoin(Key(segs, name), ':');
    } else {
      SplitClean(Join(Key(segs, name), ':'), ':');
      assert name in Key(segs, name);
    }
  }

  /** The kind can be read off the key of every registered kind, whatever the name. */
  lemma KindFromKey(segs: seq<string>, name: string)
    requires Registered(segs)
    ensures InferKind(Key(segs, name)) == KindName(segs)
  {
    CleanKinds(segs);
    if |segs| == 2 {
      JoinTwo(segs, '/');
      var key := Key(segs, name);
      assert key[0] == segs[0] && key[1] == segs[1];
    }
  }

  lemma JoinTwo(segs: seq<string>, sep: char)
    requires |segs| == 2
    ensures Join(segs, sep) == segs[0] + [sep] + segs[1]
  {
    assert segs[..1] == [segs[0]];
  }
}
