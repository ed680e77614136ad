/** The class-name token handling of main.cpp: the line filter of
    `loadNamesFile` and, inside `parseCocoYaml`, the token logic applied to
    what the `names: [...]` and `names: {...}` patterns matched. Reading
    the file and the pattern matching are outside the model; the matched
    text is the input here. */
module Names {
  import opened Wrappers
  import opened Numeric
  import opened Text
  import opened Seqs

  // ------------------------------------------------------ names file

  /** One line of a names file: trimmed; blank lines and `#` comments give
      no name. */
  function NameLine(line: string): (r: Option<string>)
    ensures r.Some? ==> r.value != [] && r.value[0] != '#' && Trimmed(r.value)
    ensures r.None? <==> Trim(line) == [] || Trim(line)[0] == '#'
  {
    var t := Trim(line);
    if t == [] || t[0] == '#' then None else Some(t)
  }

  /** A name that survives the filter: non-empty, not a comment, no padding. */
  predicate PlainName(name: string) {
    name != [] && name[0] != '#' && Trimmed(name)
  }

  /** A plain name on a line of its own, whatever blank padding surrounds
      it, reads back as itself. */
  lemma NameLineReadsBack(pre: string, name: string, post: string)
    requires AllTrimSpace(pre) && AllTrimSpace(post) && PlainName(name)
    ensures NameLine(pre + name + post) == Some(name)
  {
    TrimOfPadded(pre, name, post);
  }

  /** What each line yields, in file order. */
  function LineResults(lines: seq<string>): (rs: seq<Option<string>>)
    ensures |rs| == |lines|
    ensures forall i :: 0 <= i < |lines| ==> rs[i] == NameLine(lines[i])
  {
    seq(|lines|, i requires 0 <= i < |lines| => NameLine(lines[i]))
  }

  /** The names `loadNamesFile` collects from the file's lines. */
  function NamesFromLines(lines: seq<string>): (names: seq<string>)
    ensures |names| <= |lines|
    ensures forall k :: 0 <= k < |names| ==> PlainName(names[k])
    ensures forall k :: 0 <= k < |names| ==> exists i :: 0 <= i < |lines| && NameLine(lines[i]) == Some(names[k])
    ensures forall i :: 0 <= i < |lines| && NameLine(lines[i]).Some? ==> NameLine(lines[i]).value in names
  {
    CollectedNamesAreLines(lines);
    LineNamesAreCollected(lines);
    Collect(LineResults(lines))
  }

  /** Every name some line yields is collected. */
  lemma LineNamesAreCollected(lines: seq<string>)
    ensures forall i :: 0 <= i < |lines| && NameLine(lines[i]).Some? ==>
              NameLine(lines[i]).value in Collect(LineResults(lines))
  {
    var rs := LineResults(lines);
    var names := Collect(rs);
    var ks := Kept(rs);
    forall i | 0 <= i < |lines| && NameLine(lines[i]).Some?
      ensures NameLine(lines[i]).value in names
    {
      KeptIsComplete(rs, i);
      var k :| 0 <= k < |ks| && ks[k] == i;
      assert rs[i] == Some(names[k]);
    }
  }

  /** The names keep file order: name `k` comes from line `Kept(...)[k]`,
      those lines increase, and every line that yields a name is among
      them. */
  lemma NamesFromLinesFollowLines(lines: seq<string>)
    ensures var names := NamesFromLines(lines);
            var ks := Kept(LineResults(lines));
            && |ks| == |names|
            && (forall k, l :: 0 <= k < l < |ks| ==> ks[k] < ks[l])
            && (forall k :: 0 <= k < |ks| ==> ks[k] < |lines| && NameLine(lines[ks[k]]) == Some(names[k]))
            && (forall i :: 0 <= i < |lines| && NameLine(lines[i]).Some? ==> i in ks)
  {
    var rs := LineResults(lines);
    forall i | 0 <= i < |lines| && NameLine(lines[i]).Some?
      ensures i in Kept(rs)
    {
      KeptIsComplete(rs, i);
    }
  }

  /** Every collected name is what some line yields. */
  lemma CollectedNamesAreLines(lines: seq<string>)
    ensures forall k :: 0 <= k < |Collect(LineResults(lines))| ==>
              exists i :: 0 <= i < |lines| && NameLine(lines[i]) == Some(Collect(LineResults(lines))[k])
  {
    var rs := LineResults(lines);
    var names := Collect(rs);
    var ks := Kept(rs);
    forall k | 0 <= k < |names|
      ensures exists i :: 0 <= i < |lines| && NameLine(lines[i]) == Some(names[k])
    {
      assert NameLine(lines[ks[k]]) == Some(names[k]);
    }
  }

  /** A file holding one plain name per line reads back as those names. */
  lemma NamesFileReadsBack(names: seq<string>)
    requires forall k :: 0 <= k < |names| ==> PlainName(names[k])
    ensures NamesFromLines(names) == names
  {
    var rs := LineResults(names);
    forall i | 0 <= i < |names|
      ensures rs[i] == Some(names[i])
    {
      TrimKeepsTrimmed(names[i]);
    }
    CollectAllSome(rs, names);
  }

  // ---------------------------------------------------------- quoting

  predicate IsQuote(c: char) { c == '\'' || c == '"' }

  predicate StartsQuoted(s: string) { s != [] && IsQuote(s[0]) }

  predicate EndsQuoted(s: string) { s != [] && IsQuote(s[|s| - 1]) }

  /** Drop one leading and then one trailing quote character, either kind:
      the leading one is looked for first, the trailing one in what is
      left, so a lone quote is removed once. */
  function Dequote(s: string): (r: string)
    ensures StartsQuoted(s) && EndsQuoted(s[1..]) ==> r == s[1..|s| - 1]
    ensures StartsQuoted(s) && !EndsQuoted(s[1..]) ==> r == s[1..]
    ensures !StartsQuoted(s) && EndsQuoted(s) ==> r == s[..|s| - 1]
    ensures !StartsQuoted(s) && !EndsQuoted(s) ==> r == s
    ensures |s| - 2 <= |r| <= |s|
  {
    var a := if s != [] && IsQuote(s[0]) then s[1..] else s;
    if a != [] && IsQuote(a[|a| - 1]) then a[..|a| - 1] else a
  }

  /** Single-quote a name, as YAML files write it. */
  function Quote(name: string): string {
    "'" + name + "'"
  }

  /** Stripping undoes quoting, for every name. */
  lemma DequoteQuote(name: string)
    ensures Dequote(Quote(name)) == name
  {
    var q := Quote(name);
    assert q[1..] == name + "'";
    assert (name + "'")[..|name|] == name;
  }

  // ------------------------------------------------- `names: [a, b]`

  /** End of a token: trimmed, and kept only when something is left. */
  function Flush(names: seq<string>, cur: string): (r: seq<string>)
    ensures r == names || r == names + [Trim(cur)]
    ensures r == names <==> Trim(cur) == []
  {
    var t := Trim(cur);
    if t == [] then names else names + [t]
  }

  /** The character loop over the matched list text: a comma ends the
      current token, any other character extends it, and the text's end
      ends the last one. */
  function ListTokens(s: string, names: seq<string>, cur: string): (r: seq<string>)
    ensures |names| <= |r| && r[..|names|] == names
    decreases |s|
  {
    if s == [] then Flush(names, cur)
    else if s[0] == ',' then ListTokens(s[1..], Flush(names, cur), [])
    else ListTokens(s[1..], names, cur + [s[0]])
  }

  /** What a list token looks like once cut: non-empty, unpadded and
      comma-free. */
  predicate CleanToken(t: string) {
    t != [] && Trimmed(t) && Lacks(t, ',')
  }

  /** Trimming a comma-free token leaves a comma-free one. */
  lemma FlushClean(names: seq<string>, cur: string)
    requires Lacks(cur, ',')
    requires forall k :: 0 <= k < |names| ==> CleanToken(names[k])
    ensures forall k :: 0 <= k < |Flush(names, cur)| ==> CleanToken(Flush(names, cur)[k])
  {
    var t := Trim(cur);
    var b: nat :| PaddedAt(cur, b, t);
    assert forall k :: 0 <= k < |t| ==> t[k] == cur[b + k];
  }

  /** Every token the list loop cuts is clean. */
  lemma {:induction false} ListTokensClean(s: string, names: seq<string>, cur: string)
    requires Lacks(cur, ',')
    requires forall k :: 0 <= k < |names| ==> CleanToken(names[k])
    ensures forall k :: 0 <= k < |ListTokens(s, names, cur)| ==> CleanToken(ListTokens(s, names, cur)[k])
    decreases |s|
  {
    if s == [] {
      FlushClean(names, cur);
    } else if s[0] == ',' {
      FlushClean(names, cur);
      ListTokensClean(s[1..], Flush(names, cur), []);
    } else {
      ListTokensClean(s[1..], names, cur + [s[0]]);
    }
  }

  /** The names an inline list yields: its tokens with quotes stripped. */
  function InlineListNames(inside: string): (names: seq<string>)
    ensures forall k :: 0 <= k < |names| ==> Lacks(names[k], ',')
    ensures AllTrimSpace(inside) ==> names == []
    ensures Lacks(inside, ',') && !AllTrimSpace(inside) ==> names == [Dequote(Trim(inside))]
  {
    var toks := ListTokens(inside, [], []);
    ListTokensClean(inside, [], []);
    ListTokensOfPlain(inside);
    seq(|toks|, k requires 0 <= k < |toks| => Dequote(toks[k]))
  }

  /** Tokens joined with `, `, as an inline YAML collection writes them. */
  function Join(ts: seq<string>): string
    decreases |ts|
  {
    if ts == [] then []
    else if |ts| == 1 then ts[0]
    else ts[0] + ", " + Join(ts[1..])
  }

  /** `'a', 'b', 'c'`: the text between the brackets of a quoted list. */
  function ListText(items: seq<string>): string {
    Join(QuoteAll(items))
  }

  function QuoteAll(items: seq<string>): (qs: seq<string>)
    ensures |qs| == |items| && forall k :: 0 <= k < |items| ==> qs[k] == Quote(items[k])
  {
    seq(|items|, k requires 0 <= k < |items| => Quote(items[k]))
  }

  /** An inline list of clean tokens, quoted or bare, yields each token
      with its quotes stripped, in order. */
  lemma InlineListOfJoin(ts: seq<string>)
    requires forall k :: 0 <= k < |ts| ==> CleanToken(ts[k])
    ensures InlineListNames(Join(ts)) == seq(|ts|, k requires 0 <= k < |ts| => Dequote(ts[k]))
  {
    ListTokensOfJoin(ts, [], []);
    assert [] + ts == ts;
  }

  /** `names: [person, bicycle, car]`: bare names read back as themselves. */
  lemma InlineListOfBareNames(items: seq<string>)
    requires forall k :: 0 <= k < |items| ==> CleanToken(items[k])
    requires forall k :: 0 <= k < |items| ==> !StartsQuoted(items[k]) && !EndsQuoted(items[k])
    ensures InlineListNames(Join(items)) == items
  {
    InlineListOfJoin(items);
  }

  /** `names: ['person', 'bicycle']`: a quoted list of comma-free names reads
      back as those names. */
  lemma InlineListReadsBack(items: seq<string>)
    requires forall k :: 0 <= k < |items| ==> Lacks(items[k], ',')
    ensures InlineListNames(ListText(items)) == items
  {
    var qs := QuoteAll(items);
    forall k | 0 <= k < |qs|
      ensures CleanToken(qs[k])
    {
      QuoteIsToken(items[k]);
    }
    InlineListOfJoin(qs);
    forall k | 0 <= k < |items|
      ensures Dequote(qs[k]) == items[k]
    {
      DequoteQuote(items[k]);
    }
  }

  /** Text without a comma is one token, or none when it is blank. */
  lemma ListTokensOfPlain(inside: string)
    ensures Lacks(inside, ',') ==> ListTokens(inside, [], []) == Flush([], inside)
    ensures AllTrimSpace(inside) ==> Lacks(inside, ',')
  {
    if Lacks(inside, ',') {
      ListTokensPlain(inside, [], [], []);
      assert inside + [] == inside && [] + inside == inside;
    }
  }

  /** Characters other than commas only extend the current token. */
  lemma {:induction false} ListTokensPlain(a: string, s: string, names: seq<string>, cur: string)
    requires Lacks(a, ',')
    ensures ListTokens(a + s, names, cur) == ListTokens(s, names, cur + a)
    decreases |a|
  {
    if a != [] {
      assert (a + s)[1..] == a[1..] + s;
      assert cur + [a[0]] + a[1..] == cur + a;
      ListTokensPlain(a[1..], s, names, cur + [a[0]]);
    } else {
      assert a + s == s;
      assert cur + a == cur;
    }
  }

  /** On `, `-joined clean tokens the character loop cuts exactly those
      tokens. */
  lemma {:induction false} ListTokensOfJoin(ts: seq<string>, names: seq<string>, pre: string)
    requires AllTrimSpace(pre)
    requires forall k :: 0 <= k < |ts| ==> CleanToken(ts[k])
    ensures ListTokens(Join(ts), names, pre) == names + ts
    decreases |ts|
  {
    if ts == [] {
      assert names + ts == names;
    } else if |ts| == 1 {
      ListTokensLast(pre, ts[0], names);
      assert [ts[0]] == ts;
    } else {
      ListTokensStep(pre, ts[0], Join(ts[1..]), names);
      ListTokensOfJoin(ts[1..], names + [ts[0]], " ");
      assert names + [ts[0]] + ts[1..] == names + ts;
    }
  }

  /** A quoted comma-free name is a single, non-empty, unpadded token. */
  lemma QuoteIsToken(name: string)
    requires Lacks(name, ',')
    ensures Lacks(Quote(name), ',') && Quote(name) != [] && Trimmed(Quote(name))
  {
    var q := Quote(name);
    assert forall k :: 0 <= k < |q| ==> q[k] == '\'' || q[k] == name[k - 1];
  }

  /** A token and a comma: the token is emitted, reading goes on after the comma. */
  lemma ListTokensStep(pre: string, q: string, rest: string, names: seq<string>)
    requires AllTrimSpace(pre) && Lacks(q, ',') && q != [] && Trimmed(q)
    ensures ListTokens(q + ", " + rest, names, pre) == ListTokens(rest, names + [q], " ")
  {
    ListTokensPlain(q, ", " + rest, names, pre);
    assert q + ", " + rest == q + (", " + rest);
    assert (", " + rest)[0] == ',' && (", " + rest)[1..] == " " + rest;
    TrimOfPadded(pre, q, []);
    assert pre + q + [] == pre + q;
    assert Flush(names, pre + q) == names + [q];
    ListTokensPlain(" ", rest, names + [q], []);
    assert [] + " " == " ";
  }

  /** The last token: emitted at the end of the text. */
  lemma ListTokensLast(pre: string, q: string, names: seq<string>)
    requires AllTrimSpace(pre) && Lacks(q, ',') && q != [] && Trimmed(q)
    ensures ListTokens(q, names, pre) == names + [q]
  {
    ListTokensPlain(q, [], names, pre);
    assert q + [] == q;
    TrimOfPadded(pre, q, []);
    assert pre + q + [] == pre + q;
  }

  // ----------------------------------------------- `names: {0: a, 1: b}`

  /** Why `parseCocoYaml` does not return: `stoi` throws on the key, or
      the key is negative and the assignment would write before the
      vector's start (undefined behaviour in the source). */
  datatype YamlError = BadIndex | NegativeIndex

  /** Storing a name at an index: the list first grows, with empty names,
      until it holds the index, then that slot is overwritten. */
  function SetName(names: seq<string>, idx: nat, val: string): (r: seq<string>)
    ensures |r| == Max(|names|, idx + 1)
    ensures r[idx] == val
    ensures forall k :: 0 <= k < |r| && k != idx ==> r[k] == (if k < |names| then names[k] else [])
  {
    var grown := if |names| <= idx then names + seq(idx + 1 - |names|, _ => []) else names;
    grown[idx := val]
  }

  /** One non-empty `key: value` token; tokens without a colon are skipped. */
  function MapEntry(tok: string, names: seq<string>): (r: Result<seq<string>, YamlError>)
    ensures r.Success? ==> |names| <= |r.value|
    ensures Find(tok, ':', 0).None? ==> r == Success(names)
  {
    match Find(tok, ':', 0)
    case None => Success(names)
    case Some(colon) =>
      match ParseInt(Trim(tok[..colon]))
      case None => Failure(BadIndex)
      case Some(idx) =>
        if idx < 0 then Failure(NegativeIndex)
        else Success(SetName(names, idx, Dequote(Trim(tok[colon + 1..]))))
  }

  /** The comma loop over the matched map text, walking the unread suffix:
      each comma-separated token is trimmed and, when non-empty, applied. */
  function MapTokens(rest: string, names: seq<string>): (r: Result<seq<string>, YamlError>)
    ensures r.Success? ==> |names| <= |r.value|
    decreases |rest|
  {
    var pos := Find(rest, ',', 0);
    var tok := Trim(if pos.None? then rest else rest[..pos.value]);
    var next := if tok == [] then Success(names) else MapEntry(tok, names);
    match next
    case Failure(e) => Failure(e)
    case Success(ns) => if pos.None? then Success(ns) else MapTokens(rest[pos.value + 1..], ns)
  }

  /** The names an inline map yields; text without a colon yields none. */
  function InlineMapNames(inside: string): (r: Result<seq<string>, YamlError>)
    ensures Lacks(inside, ':') ==> r == Success([])
  {
    assert Lacks(inside, ':') ==> MapTokens(inside, []) == Success([]) by {
      if Lacks(inside, ':') {
        assert Find(inside, ':', 0).None?;
        MapTokensWithoutColon(inside, []);
      }
    }
    MapTokens(inside, [])
  }

  /** Text without a colon has no entries: every token is skipped. */
  lemma {:induction false} MapTokensWithoutColon(rest: string, names: seq<string>)
    requires Find(rest, ':', 0).None?
    ensures MapTokens(rest, names) == Success(names)
    decreases |rest|
  {
    FirstTokenWithoutColon(rest, names);
    var pos := Find(rest, ',', 0);
    if pos.Some? {
      MapTokensWithoutColon(rest[pos.value + 1..], names);
    }
  }

  /** Without a colon the first token is skipped, and what follows its comma has no colon either. */
  lemma FirstTokenWithoutColon(rest: string, names: seq<string>)
    requires Find(rest, ':', 0).None?
    ensures Find(rest, ',', 0).None? ==> MapTokens(rest, names) == Success(names)
    ensures var pos := Find(rest, ',', 0);
            pos.Some? ==> && Find(rest[pos.value + 1..], ':', 0).None?
                          && MapTokens(rest, names) == MapTokens(rest[pos.value + 1..], names)
  {
    var pos := Find(rest, ',', 0);
    if pos.None? {
      TrimWithoutColon(rest, names);
    } else {
      PartsWithoutColon(rest, pos.value);
      TrimWithoutColon(rest[..pos.value], names);
    }
    MapTokensSkip(rest, names);
  }

  /** Both sides of a cut of colon-free text are colon-free. */
  lemma PartsWithoutColon(rest: string, i: nat)
    requires i < |rest| && Find(rest, ':', 0).None?
    ensures Lacks(rest[..i], ':')
    ensures Find(rest[i + 1..], ':', 0).None?
  {
    var after := rest[i + 1..];
    assert forall k :: 0 <= k < |after| ==> after[k] == rest[i + 1 + k];
  }

  /** A token without a colon changes nothing; reading goes on after it. */
  lemma MapTokensSkip(rest: string, names: seq<string>)
    requires var pos := Find(rest, ',', 0);
             MapEntry(Trim(if pos.None? then rest else rest[..pos.value]), names) == Success(names)
    ensures Find(rest, ',', 0).None? ==> MapTokens(rest, names) == Success(names)
    ensures Find(rest, ',', 0).Some? ==>
              MapTokens(rest, names) == MapTokens(rest[Find(rest, ',', 0).value + 1..], names)
  {
  }

  lemma TrimWithoutColon(part: string, names: seq<string>)
    requires Lacks(part, ':')
    ensures MapEntry(Trim(part), names) == Success(names)
  {
    var tok := Trim(part);
    var b: nat :| PaddedAt(part, b, tok);
    assert forall k :: 0 <= k < |tok| ==> tok[k] == part[b + k];
  }

  /** `k: 'name'` */
  function MapEntryText(k: nat, name: string): string {
    ToDecimal(k) + ": " + Quote(name)
  }

  /** The reference reading of an inline map: apply its entries one after
      another, stopping at the first error. */
  function ApplyEntries(ts: seq<string>, names: seq<string>): Result<seq<string>, YamlError>
    decreases |ts|
  {
    if ts == [] then Success(names)
    else
      match MapEntry(ts[0], names)
      case Failure(e) => Failure(e)
      case Success(ns) => ApplyEntries(ts[1..], ns)
  }

  /** The entries `0: 'a'`, `1: 'b'`, ... of a numbered map. */
  function EntryTexts(items: seq<string>): (ts: seq<string>)
    ensures |ts| == |items|
    ensures forall i :: 0 <= i < |items| ==> ts[i] == MapEntryText(i, items[i])
  {
    seq(|items|, i requires 0 <= i < |items| => MapEntryText(i, items[i]))
  }

  /** `0: 'a', 1: 'b', ...` */
  function MapText(items: seq<string>): string {
    Join(EntryTexts(items))
  }

  /** The comma loop over `, `-joined clean tokens applies the tokens in
      order, as the reference reading does. */
  lemma {:induction false} MapTokensOfJoin(ts: seq<string>, names: seq<string>, pre: string)
    requires AllTrimSpace(pre)
    requires forall i :: 0 <= i < |ts| ==> CleanToken(ts[i])
    ensures MapTokens(pre + Join(ts), names) == ApplyEntries(ts, names)
    decreases |ts|
  {
    if ts == [] {
      MapTokensOfBlank(pre, names);
    } else if |ts| == 1 {
      MapTokensLast(pre, ts[0], names);
    } else {
      var more := ts[1..];
      assert CleanToken(ts[0]);
      assert forall i :: 0 <= i < |more| ==> more[i] == ts[i + 1];
      assert AllTrimSpace(" ");
      JoinOfMore(ts, pre);
      MapTokensStep(pre, ts[0], Join(more), names);
      match MapEntry(ts[0], names)
      case Failure(_) =>
      case Success(ns) => MapTokensOfJoin(more, ns, " ");
    }
  }

  lemma JoinOfMore(ts: seq<string>, pre: string)
    requires |ts| > 1
    ensures pre + Join(ts) == pre + ts[0] + ", " + Join(ts[1..])
  {
    assert pre + (ts[0] + ", " + Join(ts[1..])) == pre + ts[0] + ", " + Join(ts[1..]);
  }

  /** Blank text holds no token. */
  lemma MapTokensOfBlank(pre: string, names: seq<string>)
    requires AllTrimSpace(pre)
    ensures MapTokens(pre + [], names) == Success(names)
  {
    assert pre + [] == pre;
    assert Lacks(pre, ',');
  }

  /** One padded token followed by a comma: apply it, and on success go on
      after the comma. */
  lemma MapTokensStep(pre: string, e: string, rest: string, names: seq<string>)
    requires AllTrimSpace(pre) && CleanToken(e)
    ensures MapEntry(e, names).Failure? ==>
              MapTokens(pre + e + ", " + rest, names) == Failure(MapEntry(e, names).error)
    ensures MapEntry(e, names).Success? ==>
              MapTokens(pre + e + ", " + rest, names) == MapTokens(" " + rest, MapEntry(e, names).value)
  {
    var s := pre + e + ", " + rest;
    assert s == (pre + e) + [','] + (" " + rest);
    assert Lacks(pre + e, ',');
    FindAfterPrefix(pre + e, ',', " " + rest);
    assert s[..|pre + e|] == pre + e;
    assert s[|pre + e| + 1..] == " " + rest;
    assert pre + e + [] == pre + e;
    TrimOfPadded(pre, e, []);
  }

  /** The last padded token: apply it and stop. */
  lemma MapTokensLast(pre: string, e: string, names: seq<string>)
    requires AllTrimSpace(pre) && CleanToken(e)
    ensures MapTokens(pre + Join([e]), names) == ApplyEntries([e], names)
  {
    assert Join([e]) == e && [e][1..] == [];
    assert Lacks(pre + e, ',');
    assert pre + e + [] == pre + e;
    TrimOfPadded(pre, e, []);
  }

  /** Numbered entries, applied from entry `j` on to the first `j` names,
      give all the names. */
  lemma {:induction false} ApplyEntryTexts(items: seq<string>, j: nat)
    requires j <= |items| <= IntMax
    ensures ApplyEntries(EntryTexts(items)[j..], items[..j]) == Success(items)
    decreases |items| - j
  {
    var ts := EntryTexts(items);
    if j == |items| {
      assert ts[j..] == [] && items[..j] == items;
    } else {
      ApplyEntryText(items, j);
      ApplyEntryTexts(items, j + 1);
    }
  }

  /** Entry `j` appends name `j`. */
  lemma ApplyEntryText(items: seq<string>, j: nat)
    requires j < |items| <= IntMax
    ensures ApplyEntries(EntryTexts(items)[j..], items[..j])
         == ApplyEntries(EntryTexts(items)[j + 1..], items[..j + 1])
  {
    var ts := EntryTexts(items);
    assert MapEntry(ts[j], items[..j]) == Success(items[..j + 1]) by {
      TakeOneMore(items, j);
      MapEntryReadsBack(j, items[j], items[..j]);
    }
    ApplyEntriesCons(ts[j..], items[..j], items[..j + 1]);
    assert ts[j..][1..] == ts[j + 1..];
  }

  lemma TakeOneMore<T>(xs: seq<T>, j: nat)
    requires j < |xs|
    ensures xs[..j] + [xs[j]] == xs[..j + 1]
  {
  }

  lemma ApplyEntriesCons(ts: seq<string>, names: seq<string>, ns: seq<string>)
    requires ts != [] && MapEntry(ts[0], names) == Success(ns)
    ensures ApplyEntries(ts, names) == ApplyEntries(ts[1..], ns)
  {
  }

  /** An inline map numbering comma-free names from 0 reads back as those
      names. */
  lemma InlineMapReadsBack(items: seq<string>)
    requires forall k :: 0 <= k < |items| ==> Lacks(items[k], ',')
    requires |items| <= IntMax
    ensures InlineMapNames(MapText(items)) == Success(items)
  {
    var ts := EntryTexts(items);
    assert [] + Join(ts) == MapText(items);
    assert ts[0..] == ts && items[..0] == [];
    EntryTextsClean(items);
    MapTokensOfJoin(ts, [], []);
    ApplyEntryTexts(items, 0);
  }

  lemma EntryTextsClean(items: seq<string>)
    requires forall k :: 0 <= k < |items| ==> Lacks(items[k], ',')
    ensures forall i :: 0 <= i < |items| ==> CleanToken(EntryTexts(items)[i])
  {
    forall i | 0 <= i < |items|
      ensures CleanToken(EntryTexts(items)[i])
    {
      MapEntryTextSplit(i, items[i]);
      MapEntryTextLacksComma(i, items[i]);
    }
  }

  lemma MapEntryTextLacksComma(k: nat, name: string)
    requires Lacks(name, ',')
    ensures Lacks(MapEntryText(k, name), ',')
  {
    var d := ToDecimal(k);
    var t := MapEntryText(k, name);
    assert t == d + ": '" + name + "'";
    forall i | 0 <= i < |t|
      ensures t[i] != ','
    {
      if i < |d| {
        assert t[i] == d[i];
      } else if i < |d| + 3 {
      } else if i < |d| + 3 + |name| {
        assert t[i] == name[i - |d| - 3];
      }
    }
  }

  /** One `k: 'name'` token appends `name` to a vector of `k` names. */
  lemma MapEntryReadsBack(k: nat, name: string, names: seq<string>)
    requires |names| == k && k <= IntMax
    ensures Trimmed(MapEntryText(k, name)) && MapEntryText(k, name) != []
    ensures MapEntry(MapEntryText(k, name), names) == Success(names + [name])
  {
    var d := ToDecimal(k);
    var v := " " + Quote(name);
    MapEntryTextSplit(k, name);
    KeyReadsBack(k);
    KeyHasNoColon(k);
    ValueReadsBack(name);
    MapEntrySplit(d, v, names);
    SetNameAppends(names, name);
  }

  lemma MapEntryTextSplit(k: nat, name: string)
    ensures MapEntryText(k, name) == ToDecimal(k) + [':'] + (" " + Quote(name))
    ensures Trimmed(MapEntryText(k, name)) && MapEntryText(k, name) != []
  {
    var t := MapEntryText(k, name);
    assert t[0] == ToDecimal(k)[0] && t[|t| - 1] == '\'';
  }

  lemma SetNameAppends(names: seq<string>, name: string)
    ensures SetName(names, |names|, name) == names + [name]
  {
  }

  lemma KeyReadsBack(k: nat)
    requires k <= IntMax
    ensures ParseInt(Trim(ToDecimal(k))) == Some(k)
  {
    DecimalIsTrimmed(k);
    ParseDecimal(k);
  }

  lemma DecimalIsTrimmed(k: nat)
    ensures Trim(ToDecimal(k)) == ToDecimal(k)
  {
    var d := ToDecimal(k);
    assert IsDigit(d[0]) && IsDigit(d[|d| - 1]);
    TrimKeepsTrimmed(d);
  }

  lemma ParseDecimal(k: nat)
    requires k <= IntMax
    ensures ParseInt(ToDecimal(k)) == Some(k)
  {
    ParseIntOfDecimal(k, []);
    assert ToDecimal(k) + [] == ToDecimal(k);
  }

  lemma KeyHasNoColon(k: nat)
    ensures Lacks(ToDecimal(k), ':')
  {
    var d := ToDecimal(k);
    assert forall i :: 0 <= i < |d| ==> IsDigit(d[i]);
  }

  lemma ValueReadsBack(name: string)
    ensures Dequote(Trim(" " + Quote(name))) == name
  {
    assert " " + Quote(name) + [] == " " + Quote(name);
    TrimOfPadded(" ", Quote(name), []);
    DequoteQuote(name);
  }

  /** A `key:value` token is split at its first colon: a key `stoi`
      rejects is `BadIndex`, a negative key `NegativeIndex`, and any other
      key stores the trimmed, dequoted value at that index. */
  lemma MapEntrySplit(key: string, v: string, names: seq<string>)
    requires Lacks(key, ':')
    ensures ParseInt(Trim(key)).None? ==> MapEntry(key + [':'] + v, names) == Failure(BadIndex)
    ensures ParseInt(Trim(key)).Some? && ParseInt(Trim(key)).value < 0 ==>
              MapEntry(key + [':'] + v, names) == Failure(NegativeIndex)
    ensures ParseInt(Trim(key)).Some? && ParseInt(Trim(key)).value >= 0 ==>
              MapEntry(key + [':'] + v, names) == Success(SetName(names, ParseInt(Trim(key)).value, Dequote(Trim(v))))
  {
    var t := key + [':'] + v;
    FindAfterPrefix(key, ':', v);
    assert t[..|key|] == key;
    assert t[|key| + 1..] == v;
  }

  // ---------------------------------------------------------- cascade

  /** `parseCocoYaml` after reading the file: the inline list if it yields
      names, else the inline map if it yields names (or throws), else what
      the line-by-line section collected (`multiline`, outside the model; a
      failure there is its own `stoi` throwing). `None` stands for a
      pattern that did not match. */
  function CocoYamlNames(listInside: Option<string>, mapInside: Option<string>,
                         multiline: Result<seq<string>, YamlError>): (r: Result<seq<string>, YamlError>)
    ensures listInside.Some? && InlineListNames(listInside.value) != [] ==>
              r == Success(InlineListNames(listInside.value))
    ensures (listInside.None? || InlineListNames(listInside.value) == []) &&
            mapInside.Some? && InlineMapNames(mapInside.value).Failure? ==>
              r == InlineMapNames(mapInside.value)
    ensures (listInside.None? || InlineListNames(listInside.value) == []) &&
            mapInside.Some? && InlineMapNames(mapInside.value).Success? && InlineMapNames(mapInside.value).value != [] ==>
              r == InlineMapNames(mapInside.value)
    ensures (listInside.None? || InlineListNames(listInside.value) == []) &&
            (mapInside.None? || InlineMapNames(mapInside.value) == Success([])) ==>
              r == multiline
  {
    var fromList := if listInside.Some? then InlineListNames(listInside.value) else [];
    if fromList != [] then Success(fromList)
    else
      var fromMap := if mapInside.Some? then InlineMapNames(mapInside.value) else Success([]);
      match fromMap
      case Failure(e) => Failure(e)
      case Success(ns) => if ns != [] then Success(ns) else multiline
  }

  /** When the list pattern captured a quoted list of comma-free names,
      the result is that list, whatever the map capture and the
      line-by-line section hold. */
  lemma CocoYamlOfList(items: seq<string>, mapInside: Option<string>, multiline: Result<seq<string>, YamlError>)
    requires items != []
    requires forall k :: 0 <= k < |items| ==> Lacks(items[k], ',')
    ensures CocoYamlNames(Some(ListText(items)), mapInside, multiline) == Success(items)
  {
    InlineListReadsBack(items);
  }

  /** When the list pattern did not match and the map pattern captured a
      numbered map of comma-free names, the result is the map's names,
      whatever the line-by-line section holds. */
  lemma CocoYamlOfMap(items: seq<string>, multiline: Result<seq<string>, YamlError>)
    requires items != [] && |items| <= IntMax
    requires forall k :: 0 <= k < |items| ==> Lacks(items[k], ',')
    ensures CocoYamlNames(None, Some(MapText(items)), multiline) == Success(items)
  {
    InlineMapReadsBack(items);
  }
}
