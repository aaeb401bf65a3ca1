/** Updating a `KEY=value` file (`config/cloudinit/system/env_file.go`). */
module EnvFile {
  import opened Text
  import opened Wrappers

  // ---------- Lines ----------

  /** The lines of a text; a missing newline at its end makes no difference. */
  function Lines(text: string): seq<string>
    decreases |text|
  {
    if text == "" then []
    else if '\n' !in text then [text]
    else [text[..IndexOf(text, '\n')]] + Lines(text[IndexOf(text, '\n') + 1..])
  }

  function Unlines(lines: seq<string>): string {
    if lines == [] then "" else lines[0] + "\n" + Unlines(lines[1..])
  }

  ghost predicate NewlineFree(lines: seq<string>) {
    forall l <- lines :: '\n' !in l
  }

  lemma FirstLine(line: string, rest: string)
    requires '\n' !in line
    ensures Lines(line + "\n" + rest) == [line] + Lines(rest)
  {
    var text := line + "\n" + rest;
    assert text[|line|] == '\n' && text[..|line|] == line && text[|line| + 1..] == rest;
    FirstIndex(text, '\n', |line|);
  }

  lemma {:induction false} LinesOfUnlines(lines: seq<string>)
    requires NewlineFree(lines)
    ensures Lines(Unlines(lines)) == lines
  {
    if lines != [] {
      assert forall l <- lines[1..] :: l in lines;
      LinesOfUnlines(lines[1..]);
      FirstLine(lines[0], Unlines(lines[1..]));
    }
  }

  lemma {:induction false} LinesAreNewlineFree(text: string)
    ensures NewlineFree(Lines(text))
    decreases |text|
  {
    if '\n' in text {
      LinesAreNewlineFree(text[IndexOf(text, '\n') + 1..]);
    }
  }

  lemma {:induction false} FinalNewline(text: string)
    requires text != "" && text[|text| - 1] != '\n'
    ensures Lines(text + "\n") == Lines(text)
    decreases |text|
  {
    if '\n' !in text {
      FirstLine(text, "");
      assert text + "\n" + "" == text + "\n";
    } else {
      var i := IndexOf(text, '\n');
      var line, rest := text[..i], text[i + 1..];
      assert text == line + "\n" + rest;
      assert text + "\n" == line + "\n" + (rest + "\n");
      FirstLine(line, rest + "\n");
      FinalNewline(rest);
    }
  }

  // ---------- One line ----------

  /** The second group of the line pattern: the identifier that an equals sign follows. */
  function KeyOf(line: string): string {
    var n := NameLength(line);
    if n > 0 && n < |line| && line[n] == '=' then line[..n] else ""
  }

  /** The first group of the line pattern: one carriage return at the end is dropped. */
  function Chomp(line: string): string {
    if line != "" && line[|line| - 1] == '\r' then line[..|line| - 1] else line
  }

  function Assign(key: string, value: string): string {
    key + "=" + value
  }

  /** The keys that `WriteEnvFile` lets through. */
  predicate ValidKey(key: string) {
    IsName(key)
  }

  lemma KeyOfAssign(key: string, value: string)
    requires ValidKey(key)
    ensures KeyOf(Assign(key, value)) == key
  {
    NameLengthIs(key, "=" + value);
    assert Assign(key, value) == key + ("=" + value);
  }

  /** A line has a key exactly when it begins with the key, which is of letters, digits and
      underscores, and an equals sign. */
  lemma KeyOfIff(line: string, key: string)
    requires key != ""
    ensures KeyOf(line) == key <==> key + "=" <= line && forall i :: 0 <= i < |key| ==> ValidVariableNameChar(key[i])
  {
    var n := NameLength(line);
    if n < |line| {
      assert line == line[..n] + [line[n]] + line[n + 1..];
    }
    if key + "=" <= line && forall i :: 0 <= i < |key| ==> ValidVariableNameChar(key[i]) {
      assert line == key + line[|key|..] && line[|key|] == '=';
      NameLengthIs(key, line[|key|..]);
    }
  }

  lemma KeyOfChomp(line: string)
    ensures KeyOf(Chomp(line)) == KeyOf(line)
  {
    var n := NameLength(line);
    if Chomp(line) != line {
      assert n < |line|;
      var name, rest := line[..n], Chomp(line)[n..];
      assert Chomp(line) == name + rest;
      assert rest != "" ==> rest[0] == line[n];
      NameLengthIs(name, rest);
    }
  }

  // ---------- Merging ----------

  type Vars = map<string, string>

  /** The lines with the first line of each pending key replaced, and what is still pending. */
  function MergeLines(lines: seq<string>, pending: Vars): (seq<string>, Vars) {
    if lines == [] then ([], pending)
    else
      var key := KeyOf(lines[0]);
      if key in pending then
        var (rest, left) := MergeLines(lines[1..], pending - {key});
        ([Assign(key, pending[key])] + rest, left)
      else
        var (rest, left) := MergeLines(lines[1..], pending);
        ([Chomp(lines[0])] + rest, left)
  }

  lemma MergeHead(lines: seq<string>, pending: Vars)
    requires lines != []
    ensures var key := KeyOf(lines[0]);
      var (rest, left) := MergeLines(lines[1..], pending - {key});
      MergeLines(lines, pending) == ([if key in pending then Assign(key, pending[key]) else Chomp(lines[0])] + rest, left)
  {
    assert KeyOf(lines[0]) !in pending ==> pending - {KeyOf(lines[0])} == pending;
  }

  lemma MergeNothing(pending: Vars)
    ensures MergeLines([], pending) == ([], pending)
  {
  }

  function Assignments(keys: seq<string>, pending: Vars): seq<string>
    requires forall k <- keys :: k in pending
  {
    seq(|keys|, i requires 0 <= i < |keys| => Assign(keys[i], pending[keys[i]]))
  }

  /** `keys`: the keys of a map, sorted. */
  method Keys(m: Vars) returns (s: seq<string>)
    ensures Sorted(s) && forall k :: k in s <==> k in m
  {
    s := SortedList(m.Keys);
  }

  /** The lines of the new content, with `keys` the keys left over. */
  ghost predicate IsMerge(lines: seq<string>, pending: Vars, result: seq<string>) {
    var (merged, left) := MergeLines(lines, pending);
    exists keys :: Sorted(keys) && (forall k :: k in keys <==> k in left) && result == merged + Assignments(keys, left)
  }

  /** `content` is the text that merging the values into `text` gives. */
  ghost predicate IsMergeOf(text: string, pending: Vars, content: string) {
    exists result :: IsMerge(Lines(text), pending, result) && content == Unlines(result)
  }

  method MergeEnvContents(old': string, vars: Vars) returns (content: string)
    ensures IsMergeOf(old', vars, content)
  {
    hide Lines, MergeLines, KeyOf, Assign, Chomp, Sorted, IsMerge;
    ghost var lines;
    var text := old';
    if |text| != 0 && text[|text| - 1] != '\n' {
      FinalNewline(text);
      text := text + "\n";
    }
    content, lines := "", [];
    var pending := vars;
    var matches := Lines(text);
    assert matches[0..] == matches && lines + MergeLines(matches, vars).0 == MergeLines(matches, vars).0;
    for i := 0 to |matches|
      invariant content == Unlines(lines)
      invariant MergeLines(matches, vars).0 == lines + MergeLines(matches[i..], pending).0
      invariant MergeLines(matches, vars).1 == MergeLines(matches[i..], pending).1
    {
      assert matches[i..][0] == matches[i] && matches[i..][1..] == matches[i + 1..];
      MergeHead(matches[i..], pending);
      ghost var rest := MergeLines(matches[i + 1..], pending - {KeyOf(matches[i])}).0;
      var key, line := KeyOf(matches[i]), Chomp(matches[i]);
      if key in pending {
        line := Assign(key, pending[key]);
        pending := pending - {key};
      } else {
        assert pending - {key} == pending;
      }
      UnlinesAppend(lines, line);
      assert lines + ([line] + rest) == (lines + [line]) + rest;
      content := content + line + "\n";
      lines := lines + [line];
    }
    MergeNothing(pending);
    assert matches[|matches|..] == [] && lines + [] == lines;
    content, lines := AppendVars(content, lines, pending);
    Merged(Lines(old'), vars, lines);
  }

  lemma Merged(lines: seq<string>, pending: Vars, result: seq<string>)
    requires var (merged, left) := MergeLines(lines, pending);
      exists keys :: Sorted(keys) && (forall k :: k in keys <==> k in left) && result == merged + Assignments(keys, left)
    ensures IsMerge(lines, pending, result)
  {
  }

  /** The new variables, at the bottom of the content. */
  method AppendVars(before: string, ghost merged: seq<string>, pending: Vars) returns (content: string, ghost lines: seq<string>)
    requires before == Unlines(merged)
    ensures content == Unlines(lines)
    ensures exists keys :: Sorted(keys) && (forall k :: k in keys <==> k in pending) && lines == merged + Assignments(keys, pending)
  {
    content, lines := before, merged;
    var keys := Keys(pending);
    for i := 0 to |keys|
      invariant content == Unlines(lines)
      invariant |lines| == |merged| + i && lines[..|merged|] == merged
      invariant forall j :: 0 <= j < i ==> lines[|merged| + j] == Assign(keys[j], pending[keys[j]])
    {
      UnlinesAppend(lines, Assign(keys[i], pending[keys[i]]));
      content := content + Assign(keys[i], pending[keys[i]]) + "\n";
      lines := lines + [Assign(keys[i], pending[keys[i]])];
    }
    assert lines == merged + Assignments(keys, pending);
  }

  lemma {:induction false} UnlinesAppend(lines: seq<string>, line: string)
    ensures Unlines(lines + [line]) == Unlines(lines) + line + "\n"
  {
    if lines == [] {
      assert [line][1..] == [];
    } else {
      assert (lines + [line])[1..] == lines[1..] + [line];
      UnlinesAppend(lines[1..], line);
    }
  }

  // ---------- What merging promises ----------

  /** The value in the first line of the key. */
  function Lookup(lines: seq<string>, key: string): Option<string>
    requires ValidKey(key)
  {
    if lines == [] then None
    else if KeyOf(lines[0]) == key then Some(lines[0][|key| + 1..])
    else Lookup(lines[1..], key)
  }

  function Chomped(lines: seq<string>): seq<string> {
    if lines == [] then [] else [Chomp(lines[0])] + Chomped(lines[1..])
  }

  lemma LookupFirst(line: string, rest: seq<string>, key: string)
    requires ValidKey(key)
    ensures Lookup([line] + rest, key) == if KeyOf(line) == key then Some(line[|key| + 1..]) else Lookup(rest, key)
  {
    assert ([line] + rest)[1..] == rest;
  }

  lemma LookupAssign(k: string, value: string, rest: seq<string>, key: string)
    requires ValidKey(key) && ValidKey(k)
    ensures Lookup([Assign(k, value)] + rest, key) == if k == key then Some(value) else Lookup(rest, key)
  {
    KeyOfAssign(k, value);
    LookupFirst(Assign(k, value), rest, key);
    assert Assign(k, value)[|k| + 1..] == value;
  }

  predicate HasLine(lines: seq<string>, key: string)
    requires ValidKey(key)
  {
    Lookup(Chomped(lines), key).Some?
  }

  /** A pending key with a line gets its new value there; other keys keep the value they had. */
  lemma {:induction false} LookupMerged(lines: seq<string>, pending: Vars, key: string, more: seq<string>)
    requires ValidKey(key) && forall k <- pending :: ValidKey(k)
    ensures Lookup(MergeLines(lines, pending).0 + more, key) ==
      if !HasLine(lines, key) then Lookup(more, key)
      else if key in pending then Some(pending[key]) else Lookup(Chomped(lines), key)
    decreases |lines|
  {
    hide MergeLines, KeyOf, Assign, Chomp;
    var merged := MergeLines(lines, pending).0;
    if lines == [] {
      MergeNothing(pending);
      assert merged + more == more;
    } else {
      var k, rest := KeyOf(lines[0]), MergeLines(lines[1..], pending - {KeyOf(lines[0])}).0;
      MergeHead(lines, pending);
      LookupMerged(lines[1..], pending - {k}, key, more);
      KeyOfChomp(lines[0]);
      LookupFirst(Chomp(lines[0]), Chomped(lines[1..]), key);
      assert merged + more == [merged[0]] + (rest + more);
      if k in pending {
        LookupAssign(k, pending[k], rest + more, key);
      } else {
        LookupFirst(Chomp(lines[0]), rest + more, key);
      }
    }
  }

  lemma {:induction false} LookupAssignments(keys: seq<string>, vars: Vars, key: string)
    requires ValidKey(key) && forall k <- keys :: k in vars && ValidKey(k)
    ensures Lookup(Assignments(keys, vars), key) == if key in keys then Some(vars[key]) else None
  {
    if keys != [] {
      var all := Assignments(keys, vars);
      assert all[0] == Assign(keys[0], vars[keys[0]]) && all[1..] == Assignments(keys[1..], vars);
      assert all == [all[0]] + all[1..];
      assert forall k :: k in keys <==> k == keys[0] || k in keys[1..];
      LookupAssignments(keys[1..], vars, key);
      LookupAssign(keys[0], vars[keys[0]], all[1..], key);
    }
  }

  /** Exactly the pending keys without a line are left over, with their values. */
  lemma {:induction false} LeftOver(lines: seq<string>, pending: Vars, key: string)
    requires ValidKey(key)
    ensures var left := MergeLines(lines, pending).1;
      && (key in left <==> key in pending && !HasLine(lines, key))
      && (key in left ==> left[key] == pending[key])
    decreases |lines|
  {
    if lines != [] {
      MergeHead(lines, pending);
      KeyOfChomp(lines[0]);
      LookupFirst(Chomp(lines[0]), Chomped(lines[1..]), key);
      LeftOver(lines[1..], pending - {KeyOf(lines[0])}, key);
    }
  }

  lemma {:induction false} LeftWithin(lines: seq<string>, pending: Vars)
    ensures MergeLines(lines, pending).1.Keys <= pending.Keys
    decreases |lines|
  {
    if lines != [] {
      MergeHead(lines, pending);
      LeftWithin(lines[1..], pending - {KeyOf(lines[0])});
    }
  }

  /** What a reader of the file finds after merging: the new values of the pending keys, and the
      old ones of all others. */
  lemma FirstLineWins(lines: seq<string>, pending: Vars, result: seq<string>, key: string)
    requires IsMerge(lines, pending, result) && ValidKey(key) && forall k <- pending :: ValidKey(k)
    ensures Lookup(result, key) == if key in pending then Some(pending[key]) else Lookup(Chomped(lines), key)
  {
    var left := MergeLines(lines, pending).1;
    var keys :| Sorted(keys) && (forall k :: k in keys <==> k in left) &&
      result == MergeLines(lines, pending).0 + Assignments(keys, left);
    LeftWithin(lines, pending);
    LeftOver(lines, pending, key);
    LookupAssignments(keys, left, key);
    LookupMerged(lines, pending, key, Assignments(keys, left));
  }

  // ---------- Lines keep their place ----------

  /** Line `i` is kept: its key is not pending, or an earlier line has taken the value. */
  ghost predicate Kept(lines: seq<string>, pending: Vars, i: nat)
    requires i < |lines|
  {
    KeyOf(lines[i]) !in pending || exists j :: 0 <= j < i && KeyOf(lines[j]) == KeyOf(lines[i])
  }

  /** Every line keeps its place and, unless it is the first line of a pending key, its text; new
      variables follow in order. */
  lemma {:induction false} LineByLine(lines: seq<string>, pending: Vars, i: nat)
    requires i < |lines|
    ensures |MergeLines(lines, pending).0| == |lines|
    ensures MergeLines(lines, pending).0[i] ==
      if Kept(lines, pending, i) then Chomp(lines[i]) else Assign(KeyOf(lines[i]), pending[KeyOf(lines[i])])
    decreases |lines|
  {
    MergeHead(lines, pending);
    var k := KeyOf(lines[0]);
    if i > 0 {
      LineByLine(lines[1..], pending - {k}, i - 1);
      assert Kept(lines, pending, i) <==> Kept(lines[1..], pending - {k}, i - 1) by {
        KeptShift(lines, pending, i);
      }
    } else {
      MergedLength(lines, pending);
    }
  }

  /** A comment keeps its place and its text, even when what it comments out is pending. */
  lemma CommentStays(lines: seq<string>, pending: Vars, i: nat, rest: string)
    requires i < |lines| && lines[i] == "#" + rest && forall k <- pending :: ValidKey(k)
    requires rest == "" || rest[|rest| - 1] != '\r'
    ensures |MergeLines(lines, pending).0| == |lines| && MergeLines(lines, pending).0[i] == lines[i]
  {
    LineByLine(lines, pending, i);
    var n := NameLength(lines[i]);
    assert lines[i][0] == '#' && n == 0;
    assert rest != "" ==> lines[i][|lines[i]| - 1] == rest[|rest| - 1];
  }

  lemma KeptShift(lines: seq<string>, pending: Vars, i: nat)
    requires 0 < i < |lines|
    ensures Kept(lines, pending, i) <==> Kept(lines[1..], pending - {KeyOf(lines[0])}, i - 1)
  {
    var key := KeyOf(lines[i]);
    assert lines[1..][i - 1] == lines[i];
    if j :| 0 <= j < i && KeyOf(lines[j]) == key {
      if j > 0 {
        assert KeyOf(lines[1..][j - 1]) == key;
      }
    }
    if j :| 0 <= j < i - 1 && KeyOf(lines[1..][j]) == key {
      assert KeyOf(lines[j + 1]) == key;
    }
  }

  lemma {:induction false} MergedLength(lines: seq<string>, pending: Vars)
    ensures |MergeLines(lines, pending).0| == |lines|
  {
    if lines != [] {
      MergeHead(lines, pending);
      MergedLength(lines[1..], pending - {KeyOf(lines[0])});
    }
  }

  // ---------- Merging again ----------

  lemma {:induction false} LineIsFound(lines: seq<string>, key: string, i: nat)
    requires ValidKey(key) && i < |lines| && KeyOf(lines[i]) == key
    ensures HasLine(lines, key)
  {
    KeyOfChomp(lines[0]);
    LookupFirst(Chomp(lines[0]), Chomped(lines[1..]), key);
    if i > 0 {
      LineIsFound(lines[1..], key, i - 1);
    }
  }

  ghost function MergedLine(lines: seq<string>, pending: Vars, i: nat): string
    requires i < |lines|
  {
    if Kept(lines, pending, i) then Chomp(lines[i]) else Assign(KeyOf(lines[i]), pending[KeyOf(lines[i])])
  }

  /** The result of a merge, line by line. */
  ghost predicate MergedBy(lines: seq<string>, pending: Vars, keys: seq<string>, result: seq<string>) {
    && Sorted(keys) && (forall k <- keys :: k in pending && !exists j :: 0 <= j < |lines| && KeyOf(lines[j]) == k)
    && (forall k <- pending :: k in keys || exists j :: 0 <= j < |lines| && KeyOf(lines[j]) == k)
    && |result| == |lines| + |keys|
    && (forall i :: 0 <= i < |lines| ==> result[i] == MergedLine(lines, pending, i))
    && (forall i :: 0 <= i < |keys| ==> result[|lines| + i] == Assign(keys[i], pending[keys[i]]))
  }

  lemma {:induction false} NoLineFound(lines: seq<string>, key: string)
    requires ValidKey(key) && HasLine(lines, key)
    ensures exists j :: 0 <= j < |lines| && KeyOf(lines[j]) == key
  {
    KeyOfChomp(lines[0]);
    LookupFirst(Chomp(lines[0]), Chomped(lines[1..]), key);
    if KeyOf(lines[0]) != key {
      NoLineFound(lines[1..], key);
      var j :| 0 <= j < |lines[1..]| && KeyOf(lines[1..][j]) == key;
      assert KeyOf(lines[j + 1]) == key;
    }
  }

  lemma MergeIsMergedBy(lines: seq<string>, pending: Vars, result: seq<string>) returns (keys: seq<string>)
    requires IsMerge(lines, pending, result) && forall k <- pending :: ValidKey(k)
    ensures MergedBy(lines, pending, keys, result)
  {
    hide MergeLines, KeyOf, Chomp, Assign, Sorted, ValidKey;
    var left := MergeLines(lines, pending).1;
    keys :| Sorted(keys) && (forall k :: k in keys <==> k in left) &&
      result == MergeLines(lines, pending).0 + Assignments(keys, left);
    LeftWithin(lines, pending);
    forall k <- pending
      ensures k in left <==> !exists j :: 0 <= j < |lines| && KeyOf(lines[j]) == k
      ensures k in left ==> left[k] == pending[k]
    {
      LeftOver(lines, pending, k);
      if HasLine(lines, k) {
        NoLineFound(lines, k);
      }
      if j :| 0 <= j < |lines| && KeyOf(lines[j]) == k {
        LineIsFound(lines, k, j);
      }
    }
    MergedLength(lines, pending);
    forall i | 0 <= i < |lines| {
      LineByLine(lines, pending, i);
    }
  }

  lemma MergedByIsMerge(lines: seq<string>, pending: Vars, keys: seq<string>, result: seq<string>)
    requires MergedBy(lines, pending, keys, result) && forall k <- pending :: ValidKey(k)
    ensures IsMerge(lines, pending, result)
  {
    var (merged, left) := MergeLines(lines, pending);
    LeftWithin(lines, pending);
    forall k <- pending
      ensures k in left <==> k in keys
      ensures k in left ==> left[k] == pending[k]
    {
      LeftOver(lines, pending, k);
      if HasLine(lines, k) {
        NoLineFound(lines, k);
      }
      if j :| 0 <= j < |lines| && KeyOf(lines[j]) == k {
        LineIsFound(lines, k, j);
      }
    }
    MergedLength(lines, pending);
    forall i | 0 <= i < |lines| {
      LineByLine(lines, pending, i);
    }
    assert result == merged + Assignments(keys, left);
  }

  predicate TwoReturns(line: string) {
    |line| >= 2 && line[|line| - 1] == '\r' && line[|line| - 2] == '\r'
  }

  /** In the result, the lines have the keys they had, and the same lines are kept. */
  lemma KeysOfResult(lines: seq<string>, pending: Vars, keys: seq<string>, result: seq<string>, i: nat)
    requires MergedBy(lines, pending, keys, result) && (forall k <- pending :: ValidKey(k)) && i < |result|
    ensures KeyOf(result[i]) == if i < |lines| then KeyOf(lines[i]) else keys[i - |lines|]
  {
    if i >= |lines| {
      KeyOfAssign(keys[i - |lines|], pending[keys[i - |lines|]]);
      assert result[|lines| + (i - |lines|)] == Assign(keys[i - |lines|], pending[keys[i - |lines|]]);
    } else if Kept(lines, pending, i) {
      KeyOfChomp(lines[i]);
    } else {
      KeyOfAssign(KeyOf(lines[i]), pending[KeyOf(lines[i])]);
    }
  }

  lemma KeptInResult(lines: seq<string>, pending: Vars, keys: seq<string>, result: seq<string>, i: nat)
    requires MergedBy(lines, pending, keys, result) && (forall k <- pending :: ValidKey(k)) && i < |result|
    ensures Kept(result, pending, i) <==> i < |lines| && Kept(lines, pending, i)
  {
    forall j: nat | j < |result|
      ensures KeyOf(result[j]) == if j < |lines| then KeyOf(lines[j]) else keys[j - |lines|]
    {
      KeysOfResult(lines, pending, keys, result, j);
    }
    if i >= |lines| {
      var k := keys[i - |lines|];
      assert k in keys;
      forall j | 0 <= j < i
        ensures KeyOf(result[j]) != k
      {
        if j >= |lines| {
          LessIrreflexive(k);
          assert Less(keys[j - |lines|], k);
        }
      }
    }
  }

  /** Merging the same variables again changes nothing, exactly when no kept line ends with two
      carriage returns (one goes with each merge). */
  lemma MergingAgain(lines: seq<string>, pending: Vars, result: seq<string>)
    requires IsMerge(lines, pending, result) && forall k <- pending :: ValidKey(k)
    ensures IsMerge(result, pending, result) <==>
      forall i :: 0 <= i < |lines| && Kept(lines, pending, i) ==> !TwoReturns(lines[i])
  {
    hide IsMerge, Lookup, MergeLines, KeyOf, Kept;
    var keys := MergeIsMergedBy(lines, pending, result);
    if IsMerge(result, pending, result) {
      var keys' := MergeIsMergedBy(result, pending, result);
      forall i | 0 <= i < |lines| && Kept(lines, pending, i)
        ensures !TwoReturns(lines[i])
      {
        SameAgain(lines, pending, keys, keys', result, i);
      }
    }
    if forall i :: 0 <= i < |lines| && Kept(lines, pending, i) ==> !TwoReturns(lines[i]) {
      NotChangedAgain(lines, pending, keys, result);
    }
  }

  lemma SameAgain(lines: seq<string>, pending: Vars, keys: seq<string>, keys': seq<string>, result: seq<string>, i: nat)
    requires MergedBy(lines, pending, keys, result) && MergedBy(result, pending, keys', result)
    requires (forall k <- pending :: ValidKey(k)) && i < |lines| && Kept(lines, pending, i)
    ensures !TwoReturns(lines[i])
  {
    KeptInResult(lines, pending, keys, result, i);
    assert result[i] == MergedLine(result, pending, i) == Chomp(Chomp(lines[i]));
    assert result[i] == MergedLine(lines, pending, i) == Chomp(lines[i]);
  }

  lemma NotChangedAgain(lines: seq<string>, pending: Vars, keys: seq<string>, result: seq<string>)
    requires MergedBy(lines, pending, keys, result) && forall k <- pending :: ValidKey(k)
    requires forall i :: 0 <= i < |lines| && Kept(lines, pending, i) ==> !TwoReturns(lines[i])
    ensures IsMerge(result, pending, result)
  {
    hide IsMerge, Lookup, MergeLines, KeyOf, Kept;
    forall i | 0 <= i < |result|
      ensures result[i] == MergedLine(result, pending, i)
    {
      MergedAgainAt(lines, pending, keys, result, i);
    }
    AllKeysPresent(lines, pending, keys, result);
    MergedByIsMerge(result, pending, [], result);
  }

  lemma MergedAgainAt(lines: seq<string>, pending: Vars, keys: seq<string>, result: seq<string>, i: nat)
    requires MergedBy(lines, pending, keys, result) && (forall k <- pending :: ValidKey(k)) && i < |result|
    requires i < |lines| && Kept(lines, pending, i) ==> !TwoReturns(lines[i])
    ensures result[i] == MergedLine(result, pending, i)
  {
    KeptInResult(lines, pending, keys, result, i);
    KeysOfResult(lines, pending, keys, result, i);
    if i < |lines| {
      assert result[i] == MergedLine(lines, pending, i);
    } else {
      assert result[|lines| + (i - |lines|)] == Assign(keys[i - |lines|], pending[keys[i - |lines|]]);
    }
  }

  lemma AllKeysPresent(lines: seq<string>, pending: Vars, keys: seq<string>, result: seq<string>)
    requires MergedBy(lines, pending, keys, result) && forall k <- pending :: ValidKey(k)
    ensures forall k <- pending :: exists j :: 0 <= j < |result| && KeyOf(result[j]) == k
  {
    forall k <- pending
      ensures exists j :: 0 <= j < |result| && KeyOf(result[j]) == k
    {
      if k in keys {
        var j :| 0 <= j < |keys| && keys[j] == k;
        KeysOfResult(lines, pending, keys, result, |lines| + j);
        assert KeyOf(result[|lines| + j]) == k;
      } else {
        var j :| 0 <= j < |lines| && KeyOf(lines[j]) == k;
        KeysOfResult(lines, pending, keys, result, j);
        assert KeyOf(result[j]) == k;
      }
    }
  }

  lemma MergeUnique(lines: seq<string>, pending: Vars, a: seq<string>, b: seq<string>)
    requires IsMerge(lines, pending, a) && IsMerge(lines, pending, b)
    ensures a == b
  {
    var left := MergeLines(lines, pending).1;
    var ka :| Sorted(ka) && (forall k :: k in ka <==> k in left) && a == MergeLines(lines, pending).0 + Assignments(ka, left);
    var kb :| Sorted(kb) && (forall k :: k in kb <==> k in left) && b == MergeLines(lines, pending).0 + Assignments(kb, left);
    SortedUnique(ka, kb);
  }

  /** The text of the result has the lines of the result, so that what is proved about lines is
      true of the file. */
  lemma ResultLines(text: string, pending: Vars, result: seq<string>)
    requires IsMerge(Lines(text), pending, result)
    requires forall k <- pending :: ValidKey(k) && '\n' !in pending[k]
    ensures Lines(Unlines(result)) == result
  {
    hide Lines, Unlines, MergeLines, KeyOf, Sorted;
    var lines := Lines(text);
    var keys := MergeIsMergedBy(lines, pending, result);
    LinesAreNewlineFree(text);
    forall l <- result
      ensures '\n' !in l
    {
      var i :| 0 <= i < |result| && result[i] == l;
      if i >= |lines| {
        assert l == Assign(keys[i - |lines|], pending[keys[i - |lines|]]) && keys[i - |lines|] in keys;
      } else {
        assert lines[i] in lines;
      }
    }
    LinesOfUnlines(result);
  }

  /** The file after merging, read again: the pending keys have their new values and all others
      the ones they had. */
  lemma MergedFile(text: string, pending: Vars, content: string, key: string)
    requires IsMergeOf(text, pending, content) && ValidKey(key)
    requires forall k <- pending :: ValidKey(k) && '\n' !in pending[k]
    ensures Lookup(Lines(content), key) == if key in pending then Some(pending[key]) else Lookup(Chomped(Lines(text)), key)
  {
    hide IsMerge, Lines, Unlines, Lookup, Chomped;
    var result :| IsMerge(Lines(text), pending, result) && content == Unlines(result);
    ResultLines(text, pending, result);
    FirstLineWins(Lines(text), pending, result, key);
  }

  /** Merging the same values into the file again leaves it as it is, exactly when no kept line
      ends with two carriage returns. */
  lemma MergingFileAgain(text: string, pending: Vars, content: string)
    requires IsMergeOf(text, pending, content)
    requires forall k <- pending :: ValidKey(k) && '\n' !in pending[k]
    ensures IsMergeOf(content, pending, content) <==>
      forall i :: 0 <= i < |Lines(text)| && Kept(Lines(text), pending, i) ==> !TwoReturns(Lines(text)[i])
  {
    hide IsMerge, Lines, Unlines, Kept, TwoReturns;
    var result :| IsMerge(Lines(text), pending, result) && content == Unlines(result);
    ResultLines(text, pending, result);
    MergingAgain(Lines(text), pending, result);
    if again :| IsMerge(Lines(content), pending, again) && content == Unlines(again) {
      ResultLines(content, pending, again);
    }
  }

  /** A line of another key that ends with two carriage returns changes with every merge. */
  lemma ReturnsVanish(line: string, key: string, value: string, content: string)
    requires ValidKey(key) && KeyOf(line + "\r\r") != key && '\n' !in line && '\n' !in value
    requires IsMergeOf(line + "\r\r\n", map[key := value], content)
    ensures !IsMergeOf(content, map[key := value], content)
  {
    hide Unlines, IsMergeOf, KeyOf;
    var text := line + "\r\r\n";
    FirstLine(line + "\r\r", "");
    assert text == line + "\r\r" + "\n" + "";
    assert Lines(text) == [line + "\r\r"];
    MergingFileAgain(text, map[key := value], content);
    assert Kept(Lines(text), map[key := value], 0) && TwoReturns(Lines(text)[0]);
  }
}
