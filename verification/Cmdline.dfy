/** Values in configuration trees addressed by dotted keys (`config/cmdline/cmdline.go`). This
    module has the operations on trees; `CmdlineHeap` has the code that works in place. */
module Cmdline {
  import opened Tree
  import opened Text
  import opened Wrappers

  // ---------- One key path ----------

  function Find(t: Dict, parts: seq<string>): Option<Tree>
    requires parts != []
    decreases |parts|
  {
    var k := Str(parts[0]);
    if k !in t then None
    else if |parts| == 1 then Some(t[k])
    else if t[k].Map? then Find(t[k].m, parts[1..]) else None
  }

  /** Writing a value at a key path: missing maps on the way are created, and a value on the way
      that is not a map blocks the path. */
  function SetVal(t: Dict, parts: seq<string>, v: Tree): Option<Dict>
    requires parts != []
    decreases |parts|
  {
    var k := Str(parts[0]);
    if |parts| == 1 then Some(t[k := v])
    else if k in t && !t[k].Map? then None
    else
      var sub := SetVal(if k in t then t[k].m else map[], parts[1..], v);
      if sub.None? then None else Some(t[k := Map(sub.value)])
  }

  /** Some value on the way is not a map. */
  predicate Blocked(t: Dict, parts: seq<string>)
    requires parts != []
    decreases |parts|
  {
    |parts| > 1 && Str(parts[0]) in t &&
    (!t[Str(parts[0])].Map? || Blocked(t[Str(parts[0])].m, parts[1..]))
  }

  lemma BlockedHere(t: Dict, parts: seq<string>)
    requires |parts| > 1 && Str(parts[0]) in t && !t[Str(parts[0])].Map?
    ensures Blocked(t, parts)
  {
  }

  /** `GetOrSetVal`: without a value it looks the key up, with one it sets it in a copy. `decode`
      is `UnmarshalOrReturnString`. */
  function GetOrSetVal(decode: string -> Tree, key: string, data: Dict, value: Option<Tree>): (Tree, Dict) {
    var parts := Split(key, '.');
    match value
    case None =>
      var found := Find(data, parts);
      (if found.Some? then found.value else Leaf(Str("")), data)
    case Some(v) =>
      var v := Decoded(decode, v);
      var set' := SetVal(data, parts, v);
      if set'.Some? then (v, set'.value) else (Leaf(Str("")), data)
  }

  function Decoded(decode: string -> Tree, v: Tree): Tree {
    if v.Leaf? && v.v.Str? then decode(v.v.s) else v
  }

  // ---------- Lens laws ----------

  lemma {:induction false} SetUnlessBlocked(t: Dict, parts: seq<string>, v: Tree)
    requires parts != []
    ensures SetVal(t, parts, v).Some? <==> !Blocked(t, parts)
    decreases |parts|
  {
    if |parts| > 1 {
      SetUnlessBlocked(if Str(parts[0]) in t && t[Str(parts[0])].Map? then t[Str(parts[0])].m else map[], parts[1..], v);
      assert !Blocked(map[], parts[1..]);
    }
  }

  /** A path is blocked exactly when some proper beginning of it leads to a value that is not a map. */
  lemma {:induction false} BlockedIff(t: Dict, parts: seq<string>)
    requires parts != []
    ensures Blocked(t, parts) <==> exists i :: 0 < i < |parts| && Find(t, parts[..i]).Some? && !Find(t, parts[..i]).value.Map?
    decreases |parts|
  {
    var k := Str(parts[0]);
    if |parts| > 1 && k in t {
      assert parts[..1] == [parts[0]];
      if t[k].Map? {
        var rest := parts[1..];
        BlockedIff(t[k].m, rest);
        forall i | 1 < i < |parts|
          ensures Find(t, parts[..i]) == Find(t[k].m, rest[..i - 1])
        {
          assert parts[..i][1..] == rest[..i - 1];
        }
        if i :| 0 < i < |rest| && Find(t[k].m, rest[..i]).Some? && !Find(t[k].m, rest[..i]).value.Map? {
          assert Find(t, parts[..i + 1]) == Find(t[k].m, rest[..i]);
        }
      } else {
        assert Find(t, parts[..1]) == Some(t[k]);
      }
    }
  }

  /** What was set is found again, unless the path is blocked; then nothing is there. */
  lemma {:induction false} SetThenGet(t: Dict, parts: seq<string>, v: Tree)
    requires parts != []
    ensures SetVal(t, parts, v).Some? ==> Find(SetVal(t, parts, v).value, parts) == Some(v)
    ensures SetVal(t, parts, v).None? ==> Find(t, parts) == None
    decreases |parts|
  {
    if |parts| > 1 {
      SetThenGet(if Str(parts[0]) in t && t[Str(parts[0])].Map? then t[Str(parts[0])].m else map[], parts[1..], v);
    }
  }

  /** The second of two settings of the same key wins. */
  lemma {:induction false} SetThenSet(t: Dict, parts: seq<string>, v: Tree, v': Tree)
    requires parts != [] && !Blocked(t, parts)
    ensures SetVal(t, parts, v).Some?
    ensures SetVal(SetVal(t, parts, v).value, parts, v') == SetVal(t, parts, v')
    decreases |parts|
  {
    SetUnlessBlocked(t, parts, v);
    var k := Str(parts[0]);
    if |parts| > 1 {
      var sub := if k in t then t[k].m else map[];
      SetUnlessBlocked(t, parts, v');
      SetThenSet(sub, parts[1..], v, v');
      var w := Map(SetVal(sub, parts[1..], v').value);
      assert t[k := Map(SetVal(sub, parts[1..], v).value)][k := w] == t[k := w];
    } else {
      assert t[k := v][k := v'] == t[k := v'];
    }
  }

  /** Setting a key to what is there changes nothing. */
  lemma {:induction false} GetThenSet(t: Dict, parts: seq<string>)
    requires parts != [] && Find(t, parts).Some?
    ensures SetVal(t, parts, Find(t, parts).value) == Some(t)
    decreases |parts|
  {
    if |parts| > 1 {
      GetThenSet(t[Str(parts[0])].m, parts[1..]);
    }
    assert t[Str(parts[0]) := t[Str(parts[0])]] == t;
  }

  /** Neither key is below the other. */
  predicate Diverge(parts: seq<string>, other: seq<string>) {
    !(parts <= other) && !(other <= parts)
  }

  /** Paths that diverge from the written one keep their value. */
  lemma {:induction false} SetElsewhere(t: Dict, parts: seq<string>, v: Tree, other: seq<string>)
    requires parts != [] && other != [] && SetVal(t, parts, v).Some?
    requires !(parts <= other) && !(other <= parts)
    ensures Find(SetVal(t, parts, v).value, other) == Find(t, other)
    decreases |parts|
  {
    if parts[0] == other[0] {
      assert |parts| > 1 && |other| > 1 by {
        assert |parts| == 1 ==> parts <= other;
        assert |other| == 1 ==> other <= parts;
      }
      assert !(parts[1..] <= other[1..]) && !(other[1..] <= parts[1..]) by {
        assert parts == [parts[0]] + parts[1..] && other == [other[0]] + other[1..];
      }
      var sub := if Str(parts[0]) in t then t[Str(parts[0])].m else map[];
      SetElsewhere(sub, parts[1..], v, other[1..]);
      assert Find(map[], other[1..]) == None;
    }
  }

  /** Such paths are blocked afterwards exactly when they were before. */
  lemma {:induction false} BlockedElsewhere(t: Dict, parts: seq<string>, v: Tree, other: seq<string>)
    requires parts != [] && other != [] && SetVal(t, parts, v).Some?
    requires !(parts <= other) && !(other <= parts)
    ensures Blocked(SetVal(t, parts, v).value, other) <==> Blocked(t, other)
    decreases |parts|
  {
    if parts[0] == other[0] {
      assert |parts| > 1 && |other| > 1 by {
        assert |parts| == 1 ==> parts <= other;
        assert |other| == 1 ==> other <= parts;
      }
      assert !(parts[1..] <= other[1..]) && !(other[1..] <= parts[1..]) by {
        assert parts == [parts[0]] + parts[1..] && other == [other[0]] + other[1..];
      }
      var sub := if Str(parts[0]) in t then t[Str(parts[0])].m else map[];
      BlockedElsewhere(sub, parts[1..], v, other[1..]);
      assert !Blocked(map[], other[1..]);
    }
  }

  /** Creating a missing map on the way makes no difference to what is set below it. */
  lemma {:induction false} CreateThenSet(t: Dict, parts: seq<string>, more: seq<string>, v: Tree)
    requires parts != [] && more != [] && Find(t, parts) == None && !Blocked(t, parts)
    ensures SetVal(t, parts, Map(map[])).Some?
    ensures SetVal(SetVal(t, parts, Map(map[])).value, parts + more, v) == SetVal(t, parts + more, v)
    decreases |parts|
  {
    var k, all := Str(parts[0]), parts + more;
    assert all[0] == parts[0] && all[1..] == parts[1..] + more;
    if |parts| == 1 {
      assert all[1..] == more;
      SetUnder(t, k, map[], more, v);
    } else {
      var sub := if k in t then t[k].m else map[];
      CreateThenSet(sub, parts[1..], more, v);
      SetUnder(t, k, SetVal(sub, parts[1..], Map(map[])).value, all[1..], v);
    }
  }

  lemma SetUnder(t: Dict, k: Scalar, sub: Dict, rest: seq<string>, v: Tree)
    requires k.Str? && rest != []
    ensures var set' := SetVal(sub, rest, v);
      SetVal(t[k := Map(sub)], [k.s] + rest, v) == if set'.Some? then Some(t[k := Map(set'.value)]) else None
  {
    assert ([k.s] + rest)[1..] == rest;
    var set' := SetVal(sub, rest, v);
    if set'.Some? {
      assert t[k := Map(sub)][k := Map(set'.value)] == t[k := Map(set'.value)];
    }
  }

  /** The laws for the operation itself: what a set returns is what a get finds afterwards, a
      blocked set returns the empty string and changes nothing, and other keys are unaffected. */
  lemma GetAfterSet(decode: string -> Tree, key: string, data: Dict, v: Tree, other: string)
    ensures var (ret, data') := GetOrSetVal(decode, key, data, Some(v));
      && GetOrSetVal(decode, key, data', None).0 == ret
      && (Blocked(data, Split(key, '.')) ==> ret == Leaf(Str("")) && data' == data)
      && (!Blocked(data, Split(key, '.')) ==> ret == Decoded(decode, v))
      && (!(Split(key, '.') <= Split(other, '.')) && !(Split(other, '.') <= Split(key, '.')) ==>
            GetOrSetVal(decode, other, data', None).0 == GetOrSetVal(decode, other, data, None).0)
  {
    var parts := Split(key, '.');
    var v := Decoded(decode, v);
    SetUnlessBlocked(data, parts, v);
    SetThenGet(data, parts, v);
    if SetVal(data, parts, v).Some? && !(parts <= Split(other, '.')) && !(Split(other, '.') <= parts) {
      SetElsewhere(data, parts, v, Split(other, '.'));
    }
  }

  // ---------- The kernel command line ----------

  /** What is found after an unblocked set: a string is decoded, anything else is taken as it is. */
  lemma SetDecodes(decode: string -> Tree, key: string, data: Dict, v: Tree)
    requires !Blocked(data, Split(key, '.'))
    ensures Find(GetOrSetVal(decode, key, data, Some(v)).1, Split(key, '.'))
         == Some(match v case Leaf(Str(s)) => decode(s) case _ => v)
  {
    var decoded := if v.Leaf? && v.v.Str? then decode(v.v.s) else v;
    SetUnlessBlocked(data, Split(key, '.'), decoded);
    SetThenGet(data, Split(key, '.'), decoded);
  }

  /** Looking up what is not there gives the empty string, and looking up changes nothing. */
  lemma GetMissing(decode: string -> Tree, key: string, data: Dict)
    ensures GetOrSetVal(decode, key, data, None).1 == data
    ensures (forall v :: Find(data, Split(key, '.')) != Some(v)) ==> GetOrSetVal(decode, key, data, None).0 == Leaf(Str(""))
  {
    var found := Find(data, Split(key, '.'));
    assert found.Some? ==> found == Some(found.value);
  }

  /** The runes of `unicode.Quotation_Mark`. */
  predicate IsQuote(c: char) {
    c in {'\'', '"', '\U{00AB}', '\U{00BB}', '\U{2039}', '\U{203A}', '\U{2E42}', '\U{FF02}', '\U{FF07}', '\U{FF62}', '\U{FF63}'}
    || '\U{2018}' <= c <= '\U{201F}' || '\U{300C}' <= c <= '\U{300F}'
    || '\U{301D}' <= c <= '\U{301F}' || '\U{FE41}' <= c <= '\U{FE44}'
  }

  const NOTHING := '\0'

  /** The closure of `splitCmdLine`: what closes the open quote or bracket after `c`, and whether
      `c` separates fields. `last` is `lastRune`. */
  function Scan(last: char, c: char): (char, bool) {
    if c == last then (NOTHING, false)
    else if last != NOTHING then (last, false)
    else if IsQuote(c) then (c, false)
    else if c == '[' then (']', false)
    else (last, c == ' ')
  }

  /** `splitCmdLine`: the maximal runs of characters that do not separate fields. */
  function Fields(s: string, last: char, field: string): seq<string>
    decreases |s|
  {
    if s == "" then Emit(field)
    else
      var (next, sep) := Scan(last, s[0]);
      if sep then Emit(field) + Fields(s[1..], next, "") else Fields(s[1..], next, field + [s[0]])
  }

  function Emit(field: string): seq<string> {
    if field == "" then [] else [field]
  }

  method SplitCmdLine(cmdLine: string) returns (fields: seq<string>)
    ensures fields == Fields(cmdLine, NOTHING, "")
  {
    var last := NOTHING;
    var field := "";
    fields := [];
    for i := 0 to |cmdLine|
      invariant Fields(cmdLine, NOTHING, "") == fields + Fields(cmdLine[i..], last, field)
    {
      assert cmdLine[i..][0] == cmdLine[i] && cmdLine[i..][1..] == cmdLine[i + 1..];
      var c := cmdLine[i];
      var sep := false;
      if c == last {
        last := NOTHING;
      } else if last != NOTHING {
      } else if IsQuote(c) {
        last := c;
      } else if c == '[' {
        last := ']';
      } else {
        sep := c == ' ';
      }
      if sep {
        if field != "" {
          fields := fields + [field];
        }
        field := "";
      } else {
        field := field + [c];
      }
    }
    if field != "" {
      fields := fields + [field];
    }
  }

  /** The text scans without an outer separator from `last` to `end`. */
  predicate Word(s: string, last: char, end: char)
    decreases |s|
  {
    if s == "" then last == end
    else var (next, sep) := Scan(last, s[0]); !sep && Word(s[1..], next, end)
  }

  lemma {:induction false} FieldsOfWord(word: string, last: char, end: char, rest: string, field: string)
    requires Word(word, last, end)
    ensures Fields(word + rest, last, field) == Fields(rest, end, field + word)
    decreases |word|
  {
    if word == "" {
      assert word + rest == rest && field + word == field;
    } else {
      var (next, sep) := Scan(last, word[0]);
      assert (word + rest)[1..] == word[1..] + rest;
      assert field + word == (field + [word[0]]) + word[1..];
      FieldsOfWord(word[1..], next, end, rest, field + [word[0]]);
    }
  }

  /** Words in which every quote and bracket is closed, and every space is inside one, survive
      being joined with spaces. */
  lemma {:induction false} SplitCmdLineOfJoin(words: seq<string>)
    requires forall w <- words :: w != "" && Word(w, NOTHING, NOTHING)
    ensures Fields(Join(words, ' '), NOTHING, "") == words
    decreases |words|
  {
    if words != [] {
      var w, more := words[0], words[1..];
      if more == [] {
        FieldsOfWord(w, NOTHING, NOTHING, "", "");
        assert w + "" == w && "" + w == w;
      } else {
        assert forall x <- more :: x in words;
        SplitCmdLineOfJoin(more);
        var rest := [' '] + Join(more, ' ');
        assert Join(words, ' ') == w + rest;
        FieldsOfWord(w, NOTHING, NOTHING, rest, "");
        assert "" + w == w && rest[1..] == Join(more, ' ') && rest[0] == ' ';
      }
    }
  }

  /** A word as it is written: plain characters, quoted texts and bracketed texts. */
  datatype Chunk = Simple(text: string) | Quoted(quote: char, text: string) | Bracketed(text: string)

  predicate GoodChunk(k: Chunk) {
    match k
    case Simple(text) => forall c <- text :: '!' <= c <= '~' && c != '"' && c != '\'' && c != '['
    case Quoted(quote, text) => (quote == '"' || quote == '\'') && quote !in text
    case Bracketed(text) => ']' !in text
  }

  function ChunkText(k: Chunk): string {
    match k
    case Simple(text) => text
    case Quoted(quote, text) => [quote] + text + [quote]
    case Bracketed(text) => "[" + text + "]"
  }

  function WordText(chunks: seq<Chunk>): string {
    if chunks == [] then "" else ChunkText(chunks[0]) + WordText(chunks[1..])
  }

  lemma {:induction false} WordThen(a: string, last: char, mid: char, b: string, end: char)
    requires Word(a, last, mid) && Word(b, mid, end)
    ensures Word(a + b, last, end)
    decreases |a|
  {
    if a == "" {
      assert a + b == b;
    } else {
      assert (a + b)[1..] == a[1..] + b;
      WordThen(a[1..], Scan(last, a[0]).0, mid, b, end);
    }
  }

  lemma {:induction false} SimpleIsWord(text: string)
    requires GoodChunk(Simple(text))
    ensures Word(text, NOTHING, NOTHING)
  {
    if text != "" {
      assert text[0] in text && forall c <- text[1..] :: c in text;
      SimpleIsWord(text[1..]);
    }
  }

  lemma {:induction false} InsideIsWord(text: string, last: char)
    requires last != NOTHING && last !in text
    ensures Word(text, last, last)
  {
    if text != "" {
      InsideIsWord(text[1..], last);
    }
  }

  lemma ChunkIsWord(k: Chunk)
    requires GoodChunk(k)
    ensures Word(ChunkText(k), NOTHING, NOTHING)
  {
    match k
    case Simple(text) => SimpleIsWord(text);
    case Quoted(quote, text) =>
      InsideIsWord(text, quote);
      CloseWord([quote], text, [quote], quote);
    case Bracketed(text) =>
      InsideIsWord(text, ']');
      CloseWord("[", text, "]", ']');
  }

  lemma CloseWord(open: string, text: string, close: string, last: char)
    requires |open| == 1 && Scan(NOTHING, open[0]) == (last, false) && Word(text, last, last) && close == [last] && last != NOTHING
    ensures Word(open + text + close, NOTHING, NOTHING)
  {
    assert open[1..] == "" && close[1..] == "";
    assert Word("", last, last) && Word("", NOTHING, NOTHING);
    assert Word(open, NOTHING, last) && Word(close, last, NOTHING);
    WordThen(open, NOTHING, last, text, last);
    WordThen(open + text, NOTHING, last, close, NOTHING);
  }

  lemma {:induction false} ChunksAreWord(chunks: seq<Chunk>)
    requires forall k <- chunks :: GoodChunk(k)
    ensures Word(WordText(chunks), NOTHING, NOTHING)
    decreases |chunks|
  {
    if chunks != [] {
      assert forall k <- chunks[1..] :: k in chunks;
      ChunkIsWord(chunks[0]);
      ChunksAreWord(chunks[1..]);
      WordThen(ChunkText(chunks[0]), NOTHING, NOTHING, WordText(chunks[1..]), NOTHING);
    }
  }

  function WordTexts(words: seq<seq<Chunk>>): (r: seq<string>)
    ensures |r| == |words| && forall i :: 0 <= i < |r| ==> r[i] == WordText(words[i])
  {
    seq(|words|, i requires 0 <= i < |words| => WordText(words[i]))
  }

  /** Words of plain characters, and of texts in quotes or brackets that may have spaces, are found
      again on a line that puts spaces between them. */
  lemma WordsAreFields(words: seq<seq<Chunk>>)
    requires forall w <- words :: WordText(w) != "" && forall k <- w :: GoodChunk(k)
    ensures Fields(Join(WordTexts(words), ' '), NOTHING, "") == WordTexts(words)
  {
    hide Word;
    forall t <- WordTexts(words)
      ensures t != "" && Word(t, NOTHING, NOTHING)
    {
      var i :| 0 <= i < |words| && WordTexts(words)[i] == t;
      assert words[i] in words;
      ChunksAreWord(words[i]);
    }
    SplitCmdLineOfJoin(WordTexts(words));
  }

  /** The assignment in one part of the command line, if it is for this program. */
  function Assignment(part: string, parseAll: bool): Option<(string, string)> {
    var part' := if "cc." <= part then Some(part[3..])
                 else if !("rancher." <= part) && !parseAll then None
                 else Some(part);
    if part'.None? then None
    else
      var kv := SplitN(part'.value, '=', 2);
      Some((kv[0], if |kv| == 1 then "true" else kv[1]))
  }

  /** Folding the setting operation over the assignments: a blocked one is dropped. */
  function Assigned(decode: string -> Tree, parts: seq<string>, parseAll: bool): Dict {
    if parts == [] then map[]
    else
      var before := Assigned(decode, parts[..|parts| - 1], parseAll);
      match Assignment(parts[|parts| - 1], parseAll)
      case None => before
      case Some((key, value)) => GetOrSetVal(decode, key, before, Some(Leaf(Str(value)))).1
  }

  // ---------- What a command line sets ----------

  /** The word sets the key: it is meant for this program (or all words are), and the key goes up to
      the first equals sign. Everything after that is the value; without one it is "true". */
  predicate SetsKey(word: string, parseAll: bool, key: string, value: string) {
    var body := if "cc." <= word then word[3..] else word;
    && ("cc." <= word || "rancher." <= word || parseAll)
    && '=' !in key && (body == key + "=" + value || (body == key && value == "true"))
  }

  lemma AssignmentIff(word: string, parseAll: bool, key: string, value: string)
    ensures Assignment(word, parseAll) == Some((key, value)) <==> SetsKey(word, parseAll, key, value)
  {
    hide SplitN;
    var body := if "cc." <= word then word[3..] else word;
    PartsOfBody(body, key, value);
  }

  lemma PartsOfBody(body: string, key: string, value: string)
    ensures var kv := SplitN(body, '=', 2);
      kv[0] == key && (if |kv| == 1 then "true" else kv[1]) == value
      <==> '=' !in key && (body == key + "=" + value || (body == key && value == "true"))
  {
    if '=' in body {
      var i := IndexOf(body, '=');
      var first, rest := body[..i], body[i + 1..];
      assert body == first + ['='] + rest;
      SplitNFirst(first, rest, '=', 2);
      assert SplitN(body, '=', 2) == [first, rest];
      if '=' !in key && body == key + "=" + value {
        FirstIndex(body, '=', |key|);
        assert body[..|key|] == key && body[|key| + 1..] == value;
      }
    }
  }

  /** What is set at `key` does not get in the way of what is set at `parts`. */
  ghost predicate LeavesOpen(decode: string -> Tree, key: seq<string>, value: string, parts: seq<string>) {
    key < parts ==> decode(value).Map? && !Blocked(decode(value).m, parts[|key|..])
  }

  /** What is set at `key` does not change what has been set at `parts` before. */
  ghost predicate LeavesAlone(key: seq<string>, parts: seq<string>, v: Tree) {
    Diverge(key, parts) || (parts < key && !v.Map?)
  }

  /** Word `i` sets the key; no word before it puts something in the way, and no word after it
      changes it. */
  ghost predicate SetsLast(decode: string -> Tree, words: seq<string>, parseAll: bool, i: nat, key: string, value: string) {
    && i < |words| && SetsKey(words[i], parseAll, key, value)
    && (forall j, k, v :: 0 <= j < i && SetsKey(words[j], parseAll, k, v) ==> LeavesOpen(decode, Split(k, '.'), v, Split(key, '.')))
    && (forall j, k, v :: i < j < |words| && SetsKey(words[j], parseAll, k, v) ==>
          LeavesAlone(Split(k, '.'), Split(key, '.'), decode(value)))
  }

  /** The tree has what the words say: the decoded value of every key that is set last, and nothing
      at a path that no word touches. */
  ghost predicate Gives(decode: string -> Tree, words: seq<string>, parseAll: bool, tree: Dict) {
    && (forall i, key, value :: SetsLast(decode, words, parseAll, i, key, value) ==>
          Find(tree, Split(key, '.')) == Some(decode(value)))
    && (forall parts :: parts != [] && Untouched(words, parseAll, parts) ==> Find(tree, parts) == None)
  }

  ghost predicate Untouched(words: seq<string>, parseAll: bool, parts: seq<string>) {
    forall j, k, v :: 0 <= j < |words| && SetsKey(words[j], parseAll, k, v) ==> Diverge(Split(k, '.'), parts)
  }

  /** The tree after one more word. */
  lemma AssignedNext(decode: string -> Tree, words: seq<string>, parseAll: bool, n: nat)
    requires n < |words|
    ensures var t, t' := Assigned(decode, words[..n], parseAll), Assigned(decode, words[..n + 1], parseAll);
      || (t' == t && forall k, v :: !SetsKey(words[n], parseAll, k, v))
      || exists k, v :: SetsKey(words[n], parseAll, k, v) && AfterSet(t, Split(k, '.'), decode(v), t')
  {
    assert words[..n + 1][..n] == words[..n];
    match Assignment(words[n], parseAll)
    case None =>
      forall k, v
        ensures !SetsKey(words[n], parseAll, k, v)
      {
        AssignmentIff(words[n], parseAll, k, v);
      }
    case Some((k, v)) =>
      AssignmentIff(words[n], parseAll, k, v);
      assert AfterSet(Assigned(decode, words[..n], parseAll), Split(k, '.'), decode(v), Assigned(decode, words[..n + 1], parseAll));
  }

  ghost predicate AfterSet(t: Dict, parts: seq<string>, v: Tree, t': Dict)
    requires parts != []
  {
    t' == if SetVal(t, parts, v).Some? then SetVal(t, parts, v).value else t
  }

  /** Setting a key leaves a path unblocked, unless it puts a value in its way. */
  lemma {:induction false} StaysOpen(t: Dict, key: seq<string>, v: Tree, parts: seq<string>)
    requires key != [] && parts != [] && SetVal(t, key, v).Some? && !Blocked(t, parts)
    requires key < parts ==> v.Map? && !Blocked(v.m, parts[|key|..])
    ensures !Blocked(SetVal(t, key, v).value, parts)
    decreases |key|
  {
    if |parts| > 1 && key[0] == parts[0] {
      if |key| == 1 {
        assert key < parts;
        assert parts[1..] == parts[|key|..];
      } else {
        assert key == [key[0]] + key[1..] && parts == [parts[0]] + parts[1..];
        assert key[1..] < parts[1..] ==> key < parts && parts[1..][|key[1..]|..] == parts[|key|..];
        var sub := if Str(key[0]) in t then t[Str(key[0])].m else map[];
        assert !Blocked(map[], parts[1..]);
        StaysOpen(sub, key[1..], v, parts[1..]);
      }
    }
  }

  /** A value that is not a map blocks everything below it. */
  lemma {:induction false} ValueBlocks(t: Dict, parts: seq<string>, key: seq<string>)
    requires parts != [] && parts < key && Find(t, parts).Some? && !Find(t, parts).value.Map?
    ensures Blocked(t, key)
    decreases |parts|
  {
    if |parts| > 1 {
      assert parts[1..] < key[1..];
      ValueBlocks(t[Str(parts[0])].m, parts[1..], key[1..]);
    }
  }

  lemma NothingAssigned(decode: string -> Tree, words: seq<string>, parseAll: bool, parts: seq<string>)
    requires parts != []
    ensures Assigned(decode, words[..0], parseAll) == map[] && !Blocked(map[], parts)
  {
  }

  lemma {:induction false} OpenSoFar(decode: string -> Tree, words: seq<string>, parseAll: bool, n: nat, parts: seq<string>)
    requires n <= |words| && parts != []
    requires forall j, k, v :: 0 <= j < n && SetsKey(words[j], parseAll, k, v) ==> LeavesOpen(decode, Split(k, '.'), v, parts)
    ensures !Blocked(Assigned(decode, words[..n], parseAll), parts)
  {
    hide SetsKey, Split, Assigned, Blocked, SetVal;
    if n == 0 {
      NothingAssigned(decode, words, parseAll, parts);
    } else {
      OpenSoFar(decode, words, parseAll, n - 1, parts);
      AssignedNext(decode, words, parseAll, n - 1);
      var t, t' := Assigned(decode, words[..n - 1], parseAll), Assigned(decode, words[..n], parseAll);
      if k, v :| SetsKey(words[n - 1], parseAll, k, v) && AfterSet(t, Split(k, '.'), decode(v), t') {
        assert LeavesOpen(decode, Split(k, '.'), v, parts);
        if SetVal(t, Split(k, '.'), decode(v)).Some? {
          StaysOpen(t, Split(k, '.'), decode(v), parts);
        }
      }
    }
  }

  /** One more word leaves a path alone that diverges from its key, or a value above its key. */
  lemma FindAfterSet(t: Dict, key: seq<string>, v: Tree, t': Dict, parts: seq<string>)
    requires key != [] && parts != [] && AfterSet(t, key, v, t')
    requires Diverge(key, parts) || (parts < key && Find(t, parts).Some? && !Find(t, parts).value.Map?)
    ensures Find(t', parts) == Find(t, parts)
  {
    SetUnlessBlocked(t, key, v);
    if Diverge(key, parts) {
      if SetVal(t, key, v).Some? {
        SetElsewhere(t, key, v, parts);
      }
    } else {
      ValueBlocks(t, parts, key);
    }
  }

  lemma {:induction false} FoundSoFar(decode: string -> Tree, words: seq<string>, parseAll: bool, i: nat, n: nat, key: string, value: string)
    requires SetsLast(decode, words, parseAll, i, key, value) && i < n <= |words|
    ensures Find(Assigned(decode, words[..n], parseAll), Split(key, '.')) == Some(decode(value))
    decreases n
  {
    hide SetsKey, Split;
    var parts := Split(key, '.');
    var t, t' := Assigned(decode, words[..n - 1], parseAll), Assigned(decode, words[..n], parseAll);
    if n == i + 1 {
      OpenSoFar(decode, words, parseAll, i, parts);
      SetsOnce(decode, words, parseAll, i, key, value);
      SetThenGet(t, parts, decode(value));
      SetUnlessBlocked(t, parts, decode(value));
    } else {
      FoundSoFar(decode, words, parseAll, i, n - 1, key, value);
      AssignedNext(decode, words, parseAll, n - 1);
      if k, v :| SetsKey(words[n - 1], parseAll, k, v) && AfterSet(t, Split(k, '.'), decode(v), t') {
        FindAfterSet(t, Split(k, '.'), decode(v), t', parts);
      }
    }
  }

  /** A word that sets a key sets no other. */
  lemma SetsOnce(decode: string -> Tree, words: seq<string>, parseAll: bool, n: nat, key: string, value: string)
    requires n < |words| && SetsKey(words[n], parseAll, key, value)
    ensures AfterSet(Assigned(decode, words[..n], parseAll), Split(key, '.'), decode(value), Assigned(decode, words[..n + 1], parseAll))
  {
    AssignmentIff(words[n], parseAll, key, value);
    assert words[..n + 1][..n] == words[..n];
  }

  lemma {:induction false} NothingSoFar(decode: string -> Tree, words: seq<string>, parseAll: bool, n: nat, parts: seq<string>)
    requires n <= |words| && parts != [] && Untouched(words, parseAll, parts)
    ensures Find(Assigned(decode, words[..n], parseAll), parts) == None
  {
    hide SetsKey, Split;
    if n > 0 {
      NothingSoFar(decode, words, parseAll, n - 1, parts);
      AssignedNext(decode, words, parseAll, n - 1);
      var t, t' := Assigned(decode, words[..n - 1], parseAll), Assigned(decode, words[..n], parseAll);
      if k, v :| SetsKey(words[n - 1], parseAll, k, v) && AfterSet(t, Split(k, '.'), decode(v), t') {
        FindAfterSet(t, Split(k, '.'), decode(v), t', parts);
      }
    }
  }

  /** What folding the assignments leads to. */
  lemma AssignedGives(decode: string -> Tree, words: seq<string>, parseAll: bool)
    ensures Gives(decode, words, parseAll, Assigned(decode, words, parseAll))
  {
    hide SetsKey, Split, Untouched, SetsLast;
    assert words[..|words|] == words;
    forall i, key, value | SetsLast(decode, words, parseAll, i, key, value)
      ensures Find(Assigned(decode, words, parseAll), Split(key, '.')) == Some(decode(value))
    {
      LastIsThere(decode, words, parseAll, i, key, value);
      FoundSoFar(decode, words, parseAll, i, |words|, key, value);
    }
    forall parts | parts != [] && Untouched(words, parseAll, parts)
      ensures Find(Assigned(decode, words, parseAll), parts) == None
    {
      NothingSoFar(decode, words, parseAll, |words|, parts);
    }
  }

  lemma LastIsThere(decode: string -> Tree, words: seq<string>, parseAll: bool, i: nat, key: string, value: string)
    requires SetsLast(decode, words, parseAll, i, key, value)
    ensures i < |words|
  {
  }

  /** One word with a value, with the prefix for any key or without it for a key of this program. */
  lemma OneWord(decode: string -> Tree, word: string, parseAll: bool, key: string, value: string, tree: Dict)
    requires Gives(decode, [word], parseAll, tree) && '=' !in key
    requires word == "cc." + key + "=" + value
      || (word == key + "=" + value && !("cc." <= word) && ("rancher." <= word || parseAll))
    ensures Find(tree, Split(key, '.')) == Some(decode(value))
  {
    assert word == "cc." + key + "=" + value ==> word[3..] == key + "=" + value;
    assert SetsKey([word][0], parseAll, key, value);
    assert SetsLast(decode, [word], parseAll, 0, key, value);
  }
}
