/** The add-channels endpoint (`POST /api/add-channels`): validate the request, find the
    `const PROFILES = [...]` declaration in the refresh route's source text, parse the names it
    lists, append the requested names it does not list yet, and render the declaration again.

    Reading and writing the source file are left to the caller: the handler receives the file's
    text (None when reading it throws) and returns the text it would write. */
module AddChannels {
  import opened Common
  import opened Text
  import Sorting
  import ChannelRegistry

  const PREFIX: string := "const PROFILES = ["
  const CLOSE: string := "];"
  const QUOTES: set<char> := {'\'', '"'}

  // ---------------------------------------------------------------------------------------
  // Finding the declaration: /const PROFILES = \[([\s\S]*?)\];/

  /** The leftmost match of the pattern, as (k, j): the match is src[k..j + 2] and the captured
      list text is src[k + |PREFIX|..j]. The first occurrence of the prefix is the only candidate
      start (a later start could only use a "];" the first one could use too), and the lazy
      group stops at the first "];" after it. */
  function FindProfiles(src: string): (r: Option<(nat, nat)>)
    ensures r.Some? ==> r.value.0 + |PREFIX| <= r.value.1 && r.value.1 + |CLOSE| <= |src|
  {
    match IndexOf(src, PREFIX, 0)
    case None => None
    case Some(k) =>
      match IndexOf(src, CLOSE, k + |PREFIX|)
      case None => None
      case Some(j) => Some((k, j))
  }

  /** FindProfiles is the leftmost match of the pattern with the shortest group: the match starts
      at the first prefix and ends at the first "];" after it, and there is no match at all
      exactly when no "];" follows any prefix. */
  lemma FindProfilesIsLeftmostShortest(src: string)
    ensures var r := FindProfiles(src);
      && (r.Some? ==> OccursAt(src, PREFIX, r.value.0) && OccursAt(src, CLOSE, r.value.1))
      && (r.Some? ==> forall k :: 0 <= k < r.value.0 ==> !OccursAt(src, PREFIX, k))
      && (r.Some? ==> forall m :: r.value.0 + |PREFIX| <= m < r.value.1 ==> !OccursAt(src, CLOSE, m))
      && (r.None? <==> forall k, m :: 0 <= k && k + |PREFIX| <= m ==> !(OccursAt(src, PREFIX, k) && OccursAt(src, CLOSE, m)))
  {
  }

  // ---------------------------------------------------------------------------------------
  // Parsing the captured list: split at commas, trim each piece, delete every quote
  // character, and drop the pieces left empty

  function CleanEntry(p: string): string
  {
    RemoveChars(Trim(p), QUOTES)
  }

  /** The names the captured list text declares. */
  function ParseProfiles(group: string): seq<string>
  {
    DropEmpty(Sorting.Map(Split(group, {','}), CleanEntry))
  }

  /** Every parsed name is non-empty and holds neither a comma nor a quote. */
  lemma {:induction false} ParsedNamesPlain(xs: seq<string>)
    requires forall i :: 0 <= i < |xs| ==> NoneIn(xs[i], {','})
    ensures forall i :: 0 <= i < |DropEmpty(Sorting.Map(xs, CleanEntry))| ==>
      var n := DropEmpty(Sorting.Map(xs, CleanEntry))[i];
      n != "" && NoneIn(n, {',', '\'', '"'})
  {
    if |xs| > 0 {
      ParsedNamesPlain(xs[1..]);
      assert Sorting.Map(xs, CleanEntry)[1..] == Sorting.Map(xs[1..], CleanEntry);
      TrimInside(xs[0], {','});
      RemoveCharsKeeps(Trim(xs[0]), QUOTES, {','});
    }
  }

  lemma ParseProfilesPlain(group: string)
    ensures forall i :: 0 <= i < |ParseProfiles(group)| ==>
      ParseProfiles(group)[i] != "" && NoneIn(ParseProfiles(group)[i], {',', '\'', '"'})
  {
    SplitPieces(group, {','});
    ParsedNamesPlain(Split(group, {','}));
  }

  lemma {:induction false} RemoveCharsKeeps(s: string, cs: set<char>, absent: set<char>)
    requires NoneIn(s, absent)
    ensures NoneIn(RemoveChars(s, cs), absent + cs)
  {
    if |s| > 0 {
      RemoveCharsKeeps(s[1..], cs, absent);
    }
  }

  // ---------------------------------------------------------------------------------------
  // Rendering: each name in double quotes, joined by a comma, a line break and four spaces

  function Quote(p: string): string
  {
    "\"" + p + "\""
  }

  function Render(ps: seq<string>): string
  {
    Join(Sorting.Map(ps, Quote), ",\n    ")
  }

  /** The replacement text `const PROFILES = [\n    ${updatedProfilesStr}\n];`. */
  function Declaration(ps: seq<string>): string
  {
    DeclarationAround(ListText(ps))
  }

  function DeclarationAround(g: string): string
  {
    PREFIX + g + CLOSE
  }

  /** What the declaration's brackets enclose. */
  function ListText(ps: seq<string>): string
  {
    "\n    " + Render(ps) + "\n"
  }

  // ---------------------------------------------------------------------------------------
  // String.prototype.replace with a string replacement and a pattern without capture groups:
  // "$$" inserts "$", "$&" the match, "$`" the text before it, "$'" the text after it; any
  // other "$" is kept.

  /** The substitution for the character following a "$", when that pair is special. */
  function Special(c: char, before: string, matched: string, after: string): Option<string>
  {
    match c
    case '$' => Some("$")
    case '&' => Some(matched)
    case '`' => Some(before)
    case '\'' => Some(after)
    case _ => None
  }

  /** The expansion of rep[i..]. */
  function ExpandFrom(rep: string, i: nat, before: string, matched: string, after: string): string
    requires i <= |rep|
    decreases |rep| - i
  {
    if i == |rep| then ""
    else if rep[i] == '$' && i + 1 < |rep| && Special(rep[i + 1], before, matched, after).Some? then
      Special(rep[i + 1], before, matched, after).value + ExpandFrom(rep, i + 2, before, matched, after)
    else [rep[i]] + ExpandFrom(rep, i + 1, before, matched, after)
  }

  function Expand(rep: string, before: string, matched: string, after: string): string
  {
    ExpandFrom(rep, 0, before, matched, after)
  }

  /** A replacement without "$" is inserted as it is. */
  lemma {:induction false} ExpandFromPlain(rep: string, i: nat, before: string, matched: string, after: string)
    requires i <= |rep| && NoneIn(rep, {'$'})
    ensures ExpandFrom(rep, i, before, matched, after) == rep[i..]
    decreases |rep| - i
  {
    if i < |rep| {
      ExpandFromPlain(rep, i + 1, before, matched, after);
      assert rep[i..] == [rep[i]] + rep[i + 1..];
    }
  }

  lemma ExpandPlain(rep: string, before: string, matched: string, after: string)
    requires NoneIn(rep, {'$'})
    ensures Expand(rep, before, matched, after) == rep
  {
    ExpandFromPlain(rep, 0, before, matched, after);
  }

  /** `src.replace(pattern, rep)` for the match (k, j). */
  function ReplaceMatch(src: string, k: nat, j: nat, rep: string): string
    requires k <= j + |CLOSE| <= |src|
  {
    src[..k] + Expand(rep, src[..k], src[k..j + |CLOSE|], src[j + |CLOSE|..]) + src[j + |CLOSE|..]
  }

  /** The list text the pattern captures. */
  function Captured(text: string): string
    requires FindProfiles(text).Some?
  {
    var m := FindProfiles(text).value;
    text[m.0 + |PREFIX|..m.1]
  }

  /** The names a source text declares: the parsed capture of the pattern, if it matches. */
  function ListedIn(text: string): (r: Option<seq<string>>)
    ensures r.Some? <==> FindProfiles(text).Some?
  {
    if FindProfiles(text).None? then None else Some(ParseProfiles(Captured(text)))
  }

  /** `text.replace(pattern, declaration)` with the declaration of ps. */
  function Rewrite(text: string, ps: seq<string>): string
    requires FindProfiles(text).Some?
  {
    var m := FindProfiles(text).value;
    ReplaceMatch(text, m.0, m.1, Declaration(ps))
  }

  // ---------------------------------------------------------------------------------------
  // The request and the handler

  /** `body.channels`: an array of names, or anything that is not an array (absent, null, a
      string, an object, ...). */
  datatype ChannelsValue = Names(names: seq<string>) | NotAnArray

  /** The parsed request body. Unparsable: `request.json()` throws; NullBody: the body is the
      JSON value null, whose destructuring throws. A body that is another non-object value
      reads as Fields(NotAnArray, JNull). */
  datatype AddBody = Unparsable | NullBody | Fields(channels: ChannelsValue, apiKey: Json)

  /** The error a rejected request reports, named after its message. */
  datatype AddError =
    | BadJson         // the SyntaxError `request.json()` throws
    | NullDestructure // the TypeError destructuring a null body throws
    | NoChannels      // 'No channels provided'
    | NoKey           // 'APIFY_API_KEY not provided'
    | FileUnreadable  // the error reading the refresh route's file throws
    | NoArray         // 'Could not find PROFILES array in refresh route'
    | AllExist        // 'All channels already exist'
    | BadName         // 'Invalid channel name', only in the validated handler

  datatype AddResponse =
    | Rejected(status: int, error: AddError)
    | Added(newChannels: seq<string>, totalChannels: nat, written: string)

  /** The handler as written. `src` is the refresh route's text, None when reading it throws. */
  function AddChannelsPost(body: AddBody, src: Option<string>): AddResponse
  {
    match body
    case Unparsable => Rejected(500, BadJson)
    case NullBody => Rejected(500, NullDestructure)
    case Fields(channels, apiKey) =>
      if channels.NotAnArray? || |channels.names| == 0 then Rejected(400, NoChannels)
      else if !Truthy(apiKey) then Rejected(400, NoKey)
      else if src.None? then Rejected(500, FileUnreadable)
      else
        match ListedIn(src.value)
        case None => Rejected(500, NoArray)
        case Some(existing) =>
          var added := ChannelRegistry.Unseen(channels.names, existing);
          if |added| == 0 then Rejected(400, AllExist)
          else
            var updated := existing + added;
            Added(added, |updated|, Rewrite(src.value, updated))
  }

  /** Each response and the request that produces it: 400 without channels, 400 without a key,
      500 when the file has no declaration, 400 when every channel is already declared, and
      otherwise the unseen channels appended to the declaration and counted. That the written
      text then declares the old names followed by the new ones is WrittenFileListsUpdated. */
  lemma AddChannelsPostSpec(body: AddBody, src: Option<string>)
    ensures var r := AddChannelsPost(body, src);
      r.Rejected? && r.status == 400 && r.error == NoChannels <==>
      body.Fields? && (body.channels.NotAnArray? || |body.channels.names| == 0)
    ensures var r := AddChannelsPost(body, src);
      r.Rejected? && r.status == 400 && r.error == NoKey <==>
      body.Fields? && body.channels.Names? && |body.channels.names| > 0 && !Truthy(body.apiKey)
    ensures var r := AddChannelsPost(body, src);
      r.Rejected? && r.status == 500 && r.error == NoArray <==>
      body.Fields? && body.channels.Names? && |body.channels.names| > 0 && Truthy(body.apiKey) &&
      src.Some? && ListedIn(src.value).None?
    ensures var r := AddChannelsPost(body, src);
      r.Rejected? && r.error == AllExist <==>
      body.Fields? && body.channels.Names? && |body.channels.names| > 0 && Truthy(body.apiKey) &&
      src.Some? && ListedIn(src.value).Some? &&
      ChannelRegistry.Unseen(body.channels.names, ListedIn(src.value).value) == []
    ensures var r := AddChannelsPost(body, src);
      r.Added? ==>
      body.Fields? && body.channels.Names? && Truthy(body.apiKey) && src.Some? && ListedIn(src.value).Some?
    ensures var r := AddChannelsPost(body, src);
      r.Added? ==>
      var existing := ListedIn(src.value).value;
      && r.newChannels == ChannelRegistry.Unseen(body.channels.names, existing)
      && |r.newChannels| > 0
      && r.totalChannels == |existing| + |r.newChannels|
      && r.written == Rewrite(src.value, existing + r.newChannels)
  {
  }

  // ---------------------------------------------------------------------------------------
  // Parse and render are inverse on plain names

  /** A name the parse gives back from its rendered entry: non-empty, no comma, no quote. */
  predicate ListableName(n: string)
  {
    n != "" && NoneIn(n, {',', '\'', '"'})
  }

  /** A name the corrected handler accepts: listable, and holding no `]` and no `$`. Every
      plain name survives being written into the declaration and read back. The test is
      conservative: a `]` ends the match only when `;` follows it, and a `$` is special in the
      replacement only before `$`, `&`, a backquote or `'`, so some names it refuses would
      survive as well. */
  predicate PlainName(n: string)
  {
    n != "" && NoneIn(n, {',', '\'', '"', ']', '$'})
  }

  /** The list text is the entries joined by commas, each entry a quoted name after a
      newline and indentation, the last one followed by a newline. */
  function Entry(p: string): string
  {
    "\n    " + Quote(p)
  }

  lemma QuoteAvoids(p: string, cs: set<char>)
    requires NoneIn(p, cs) && '"' !in cs
    ensures NoneIn(Quote(p), cs)
  {
    NoneInAppend("\"", p, cs);
    NoneInAppend("\"" + p, "\"", cs);
  }

  lemma EntryAvoids(p: string, cs: set<char>)
    requires NoneIn(p, cs) && '"' !in cs && '\n' !in cs && ' ' !in cs
    ensures NoneIn(Entry(p), cs)
  {
    QuoteAvoids(p, cs);
    NoneInAppend("\n    ", Quote(p), cs);
  }

  lemma {:induction false} ListTextAsEntries(ps: seq<string>)
    requires |ps| > 0
    ensures ListText(ps) == Join(Sorting.Map(ps[..|ps| - 1], Entry) + [Entry(ps[|ps| - 1]) + "\n"], ",")
  {
    if |ps| == 1 {
      Sorting.MapAt(ps, Quote, 0);
      assert Sorting.Map(ps, Quote) == [Quote(ps[0])];
      assert Sorting.Map(ps[..0], Entry) == [];
    } else {
      var rest := ps[1..];
      ListTextAsEntries(rest);
      var qs := Sorting.Map(ps, Quote);
      assert qs[1..] == Sorting.Map(rest, Quote);
      assert Render(ps) == Quote(ps[0]) + ",\n    " + Render(rest);
      var es := Sorting.Map(ps[..|ps| - 1], Entry) + [Entry(ps[|ps| - 1]) + "\n"];
      var es' := Sorting.Map(rest[..|rest| - 1], Entry) + [Entry(rest[|rest| - 1]) + "\n"];
      assert ps[..|ps| - 1][1..] == rest[..|rest| - 1];
      assert es[1..] == es';
      Sorting.MapAt(ps[..|ps| - 1], Entry, 0);
      assert es[0] == Entry(ps[0]);
      assert ListText(rest) == "\n    " + Render(rest) + "\n";
    }
  }

  lemma EntryClean(p: string, tail: string)
    requires NoneIn(p, QUOTES) && (tail == "" || tail == "\n")
    ensures CleanEntry(Entry(p) + tail) == p
  {
    assert AllSpace("\n    ");
    TrimPadded("\n    ", Quote(p), tail);
    AppendAssoc("\"", p, "\"");
    RemoveCharsAppend("\"", p + "\"", QUOTES);
    RemoveCharsAppend(p, "\"", QUOTES);
    RemoveCharsNone(p, QUOTES);
  }

  lemma {:induction false} RemoveCharsAppend(a: string, b: string, cs: set<char>)
    ensures RemoveChars(a + b, cs) == RemoveChars(a, cs) + RemoveChars(b, cs)
  {
    if |a| > 0 {
      assert (a + b)[1..] == a[1..] + b;
      RemoveCharsAppend(a[1..], b, cs);
    } else {
      assert a + b == b;
    }
  }

  /** The pieces ListTextAsEntries splits the list text into. */
  function Entries(ps: seq<string>): seq<string>
    requires |ps| > 0
  {
    Sorting.Map(ps[..|ps| - 1], Entry) + [Entry(ps[|ps| - 1]) + "\n"]
  }

  lemma EntriesNoComma(ps: seq<string>)
    requires |ps| > 0 && forall i :: 0 <= i < |ps| ==> ListableName(ps[i])
    ensures forall i :: 0 <= i < |Entries(ps)| ==> NoneIn(Entries(ps)[i], {','})
  {
    var es := Entries(ps);
    var n := |ps|;
    forall i | 0 <= i < |es| ensures NoneIn(es[i], {','}) {
      EntryAvoids(ps[i], {','});
      if i < n - 1 {
        Sorting.MapAt(ps[..n - 1], Entry, i);
      } else {
        NoneInAppend(Entry(ps[i]), "\n", {','});
      }
    }
  }

  lemma EntryCleanAt(ps: seq<string>, i: nat)
    requires i < |ps| && forall i :: 0 <= i < |ps| ==> ListableName(ps[i])
    ensures CleanEntry(Entries(ps)[i]) == ps[i]
  {
    assert ListableName(ps[i]);
    if i < |ps| - 1 {
      Sorting.MapAt(ps[..|ps| - 1], Entry, i);
      assert Entries(ps)[i] == Entry(ps[i]) + "";
      EntryClean(ps[i], "");
    } else {
      EntryClean(ps[i], "\n");
    }
  }

  lemma EntriesClean(ps: seq<string>)
    requires |ps| > 0 && forall i :: 0 <= i < |ps| ==> ListableName(ps[i])
    ensures Sorting.Map(Entries(ps), CleanEntry) == ps
  {
    forall i | 0 <= i < |ps| ensures ps[i] == CleanEntry(Entries(ps)[i]) {
      EntryCleanAt(ps, i);
    }
    Sorting.MapElementwise(Entries(ps), CleanEntry, ps);
  }

  lemma ParseRenderEmpty()
    ensures ParseProfiles(ListText([])) == []
  {
    var t := "\n    \n";
    assert ListText([]) == t;
    SplitJoin([t], ',', {','});
    assert AllSpace(t);
    TrimEmptyIffAllSpace(t);
    assert Sorting.Map([t], CleanEntry) == [""];
  }

  /** Reading back a rendered list gives the list, for names without commas or quotes. */
  lemma ParseRender(ps: seq<string>)
    requires forall i :: 0 <= i < |ps| ==> ListableName(ps[i])
    ensures ParseProfiles(ListText(ps)) == ps
  {
    if |ps| == 0 {
      ParseRenderEmpty();
    } else {
      ListTextAsEntries(ps);
      EntriesNoComma(ps);
      SplitJoin(Entries(ps), ',', {','});
      EntriesClean(ps);
      DropEmptyNone(ps);
    }
  }

  // ---------------------------------------------------------------------------------------
  // Writing the declaration back and finding it again

  lemma {:induction false} JoinAvoids(xs: seq<string>, sep: string, cs: set<char>)
    requires NoneIn(sep, cs) && forall i :: 0 <= i < |xs| ==> NoneIn(xs[i], cs)
    ensures NoneIn(Join(xs, sep), cs)
  {
    if |xs| > 1 {
      JoinAvoids(xs[1..], sep, cs);
    }
  }

  lemma ListTextAvoids(ps: seq<string>, cs: set<char>)
    requires forall i :: 0 <= i < |ps| ==> NoneIn(ps[i], cs)
    requires '"' !in cs && ',' !in cs && '\n' !in cs && ' ' !in cs
    ensures NoneIn(ListText(ps), cs)
  {
    var qs := Sorting.Map(ps, Quote);
    forall i | 0 <= i < |qs| ensures NoneIn(qs[i], cs) {
      QuoteAvoids(ps[i], cs);
      Sorting.MapAt(ps, Quote, i);
    }
    JoinAvoids(qs, ",\n    ", cs);
  }

  /** Text that agrees with src up to the end of src's first prefix has no earlier prefix either. */
  lemma NoEarlierPrefix(out: string, src: string, k: nat)
    requires k + |PREFIX| <= |src| && k + |PREFIX| <= |out| && out[..k + |PREFIX|] == src[..k + |PREFIX|]
    requires forall h :: 0 <= h < k ==> !OccursAt(src, PREFIX, h)
    ensures forall h :: 0 <= h < k ==> !OccursAt(out, PREFIX, h)
  {
    forall h | 0 <= h < k ensures !OccursAt(out, PREFIX, h) {
      calc {
        out[h..h + |PREFIX|];
        out[..k + |PREFIX|][h..h + |PREFIX|];
        src[..k + |PREFIX|][h..h + |PREFIX|];
        src[h..h + |PREFIX|];
      }
      assert !OccursAt(src, PREFIX, h);
    }
  }

  /** After text without ']' the first "];" is the one right behind it. */
  lemma FirstCloseAfter(out: string, start: nat, g: string)
    requires start + |g| + |CLOSE| <= |out| && out[start..start + |g|] == g && NoneIn(g, {']'})
    requires out[start + |g|..start + |g| + |CLOSE|] == CLOSE
    ensures IndexOf(out, CLOSE, start) == Some(start + |g|)
  {
    forall m | start <= m < start + |g| ensures !OccursAt(out, CLOSE, m) {
      assert out[m] == g[m - start];
      assert out[m..m + |CLOSE|][0] == out[m];
    }
    IndexOfFirst(out, CLOSE, start, start + |g|);
  }

  /** The pattern finds a declaration written after text with no earlier prefix, and captures
      its list text when that has no ']'. */
  lemma FindSpliced(pre: string, g: string, post: string, out: string, k: nat)
    requires out == pre + PREFIX + g + CLOSE + post && k == |pre|
    requires forall h :: 0 <= h < |pre| ==> !OccursAt(pre + PREFIX, PREFIX, h)
    requires NoneIn(g, {']'})
    ensures FindProfiles(out) == Some((k, k + |PREFIX| + |g|))
    ensures out[k + |PREFIX|..k + |PREFIX| + |g|] == g
  {
    var start := k + |PREFIX|;
    assert IndexOf(out, PREFIX, 0) == Some(k) by {
      NoEarlierPrefix(out, pre + PREFIX, k);
      assert out[k..k + |PREFIX|] == PREFIX;
      IndexOfFirst(out, PREFIX, 0, k);
    }
    assert out[start..start + |g|] == g;
    assert IndexOf(out, CLOSE, start) == Some(start + |g|) by {
      assert out[start + |g|..start + |g| + |CLOSE|] == CLOSE;
      FirstCloseAfter(out, start, g);
    }
  }

  /** Writing the declaration of names without '$' or ']' in place of the match leaves a text in which the
      pattern matches at the same place and captures exactly the new list text. */
  lemma FindAfterReplace(src: string, ps: seq<string>)
    requires FindProfiles(src).Some?
    requires forall i :: 0 <= i < |ps| ==> NoneIn(ps[i], {'$', ']'})
    ensures var k := FindProfiles(src).value.0;
      FindProfiles(Rewrite(src, ps)) == Some((k, k + |PREFIX| + |ListText(ps)|))
    ensures Captured(Rewrite(src, ps)) == ListText(ps)
  {
    var k, j := FindProfiles(src).value.0, FindProfiles(src).value.1;
    var g := ListText(ps);
    ListTextAvoids(ps, {'$', ']'});
    var out := Rewrite(src, ps);
    assert out == ReplaceMatch(src, k, j, DeclarationAround(g));
    SpliceFound(src, k, j, g);
    assert Captured(out) == out[k + |PREFIX|..k + |PREFIX| + |g|];
  }

  /** The same for any list text without '$' or ']'. */
  lemma SpliceFound(src: string, k: nat, j: nat, g: string)
    requires FindProfiles(src) == Some((k, j))
    requires NoneIn(g, {'$', ']'})
    ensures var out := ReplaceMatch(src, k, j, DeclarationAround(g));
      FindProfiles(out) == Some((k, k + |PREFIX| + |g|)) &&
      out[k + |PREFIX|..k + |PREFIX| + |g|] == g
  {
    assert NoneIn(g, {'$'}) && NoneIn(g, {']'});
    var pre, post := SpliceParts(src, k, j, g);
    FindSpliced(pre, g, post, ReplaceMatch(src, k, j, DeclarationAround(g)), k);
  }

  /** The rewritten text is the text before the match, the new declaration, and the text after
      it; the first prefix is still the one at k. */
  lemma SpliceParts(src: string, k: nat, j: nat, g: string) returns (pre: string, post: string)
    requires FindProfiles(src) == Some((k, j))
    requires NoneIn(g, {'$'})
    ensures |pre| == k
    ensures ReplaceMatch(src, k, j, DeclarationAround(g)) == pre + PREFIX + g + CLOSE + post
    ensures forall h :: 0 <= h < |pre| ==> !OccursAt(pre + PREFIX, PREFIX, h)
  {
    FindProfilesIsLeftmostShortest(src);
    pre, post := src[..k], src[j + |CLOSE|..];
    ReplacePlain(src, k, j, g);
    PrefixFirst(src, k);
  }

  lemma ReplacePlain(src: string, k: nat, j: nat, g: string)
    requires k <= j + |CLOSE| <= |src| && NoneIn(g, {'$'})
    ensures ReplaceMatch(src, k, j, DeclarationAround(g)) == src[..k] + PREFIX + g + CLOSE + src[j + |CLOSE|..]
  {
    ExpandPlain(DeclarationAround(g), src[..k], src[k..j + |CLOSE|], src[j + |CLOSE|..]);
  }

  lemma PrefixFirst(src: string, k: nat)
    requires OccursAt(src, PREFIX, k)
    requires forall h :: 0 <= h < k ==> !OccursAt(src, PREFIX, h)
    ensures forall h :: 0 <= h < k ==> !OccursAt(src[..k] + PREFIX, PREFIX, h)
  {
    var pre := src[..k];
    assert pre + PREFIX == src[..k + |PREFIX|];
    forall h | 0 <= h < k ensures !OccursAt(pre + PREFIX, PREFIX, h) {
      assert !OccursAt(src, PREFIX, h);
      assert (pre + PREFIX)[h..h + |PREFIX|] == src[h..h + |PREFIX|];
    }
  }

  /** Replacing the matched declaration by the declaration of plain names makes the text
      declare exactly those names. */
  lemma RewriteDeclares(src: string, ps: seq<string>)
    requires FindProfiles(src).Some?
    requires forall i :: 0 <= i < |ps| ==> PlainName(ps[i])
    ensures ListedIn(Rewrite(src, ps)) == Some(ps)
  {
    forall i | 0 <= i < |ps| ensures NoneIn(ps[i], {'$', ']'}) && ListableName(ps[i]) {
      assert PlainName(ps[i]);
    }
    FindAfterReplace(src, ps);
    ParseRender(ps);
  }

  /** The round trip the handler relies on: when the declared names and the requested ones are
      plain, the text it writes declares exactly the old names followed by `newChannels`, and
      `totalChannels` is their number. */
  lemma WrittenFileListsUpdated(names: seq<string>, apiKey: Json, src: string)
    requires forall i :: 0 <= i < |names| ==> PlainName(names[i])
    requires ListedIn(src).Some? && forall i :: 0 <= i < |ListedIn(src).value| ==> PlainName(ListedIn(src).value[i])
    ensures var r := AddChannelsPost(Fields(Names(names), apiKey), Some(src));
      r.Added? ==>
        ListedIn(r.written) == Some(ListedIn(src).value + r.newChannels) &&
        r.totalChannels == |ListedIn(src).value| + |r.newChannels|
  {
    var r := AddChannelsPost(Fields(Names(names), apiKey), Some(src));
    if r.Added? {
      var existing := ListedIn(src).value;
      var added := ChannelRegistry.Unseen(names, existing);
      AddChannelsPostSpec(Fields(Names(names), apiKey), Some(src));
      assert r.newChannels == added && r.written == Rewrite(src, existing + added);
      forall i | 0 <= i < |added| ensures PlainName(added[i]) {
        ChannelRegistry.UnseenMembers(names, existing, added[i]);
      }
      RewriteDeclares(src, existing + added);
    }
  }

  /** The declaration in the refresh route as shipped lists its eight profiles. */
  lemma ShippedDeclarationParses()
    ensures ParseProfiles(ListText([
      "matchupvault", "wrestler.trivia", "callthemoment", "street.slamdown",
      "ragequitguy", "celebolution", "nearmiss529", "arena.fever"])) ==
      ["matchupvault", "wrestler.trivia", "callthemoment", "street.slamdown",
       "ragequitguy", "celebolution", "nearmiss529", "arena.fever"]
  {
    var ps := ["matchupvault", "wrestler.trivia", "callthemoment", "street.slamdown",
      "ragequitguy", "celebolution", "nearmiss529", "arena.fever"];
    forall i | 0 <= i < |ps| ensures ListableName(ps[i]) {
    }
    ParseRender(ps);
  }

  // ---------------------------------------------------------------------------------------
  // The handler with names validated

  /** Some requested name is not plain. Every name that could not be written into the
      declaration and read back unchanged is among these, and so are a few that could. */
  predicate SomeUnplain(names: seq<string>)
  {
    exists i :: 0 <= i < |names| && !PlainName(names[i])
  }

  /** Every name the text declares, if it declares any, is plain. */
  predicate DeclaresPlain(text: string)
  {
    ListedIn(text).Some? ==> forall i :: 0 <= i < |ListedIn(text).value| ==> PlainName(ListedIn(text).value[i])
  }

  /** The handler with the evidently intended check: a request naming a channel that is not
      plain, which covers every channel that would not survive the round trip through the file,
      is refused with 400 before anything is read; every other request is handled as before. */
  function AddChannelsPostChecked(body: AddBody, src: Option<string>): (r: AddResponse)
    ensures r.Rejected? && r.status == 400 && r.error == BadName <==>
      body.Fields? && body.channels.Names? && SomeUnplain(body.channels.names)
    ensures !(body.Fields? && body.channels.Names? && SomeUnplain(body.channels.names)) ==>
      r == AddChannelsPost(body, src)
  {
    if body.Fields? && body.channels.Names? && SomeUnplain(body.channels.names) then
      Rejected(400, BadName)
    else
      AddChannelsPost(body, src)
  }

  /** With validation, the file the handler writes declares exactly the names it declared
      before followed by the new ones, `totalChannels` counts them, and the written file again
      declares only plain names, so the next request starts from the same guarantee. */
  lemma CheckedWriteRoundTrip(body: AddBody, src: Option<string>)
    requires src.Some? ==> DeclaresPlain(src.value)
    ensures var r := AddChannelsPostChecked(body, src);
      r.Added? ==>
        && src.Some? && ListedIn(src.value).Some?
        && ListedIn(r.written) == Some(ListedIn(src.value).value + r.newChannels)
        && r.totalChannels == |ListedIn(r.written).value|
        && DeclaresPlain(r.written)
  {
    var r := AddChannelsPostChecked(body, src);
    if r.Added? {
      AddChannelsPostSpec(body, src);
      var names := body.channels.names;
      var existing := ListedIn(src.value).value;
      assert r == AddChannelsPost(Fields(Names(names), body.apiKey), src);
      var updated := existing + r.newChannels;
      assert ListedIn(r.written) == Some(updated) && r.totalChannels == |updated| by {
        assert forall i :: 0 <= i < |names| ==> PlainName(names[i]);
        WrittenFileListsUpdated(names, body.apiKey, src.value);
      }
      forall i | 0 <= i < |updated| ensures PlainName(updated[i]) {
        if i >= |existing| {
          ChannelRegistry.UnseenMembers(names, existing, updated[i]);
        }
      }
    }
  }

  // ---------------------------------------------------------------------------------------
  // Without validation a name with a comma is written as one entry and read back as two

  /** The two halves a name with one comma is read back as, after its entry is split. */
  function OpenHalf(a: string): string
  {
    "\n    " + "\"" + a
  }

  function CloseHalf(b: string): string
  {
    b + "\"" + "\n"
  }

  lemma CommaEntryHalves(a: string, b: string)
    ensures Entry(a + "," + b) + "\n" == OpenHalf(a) + "," + CloseHalf(b)
  {
    Regroup("\n    ", "\"", a, ",", b, "\"", "\n");
  }

  lemma OpenHalfAvoids(a: string, cs: set<char>)
    requires NoneIn(a, cs) && '"' !in cs && '\n' !in cs && ' ' !in cs
    ensures NoneIn(OpenHalf(a), cs)
  {
    assert NoneIn("\n    " + "\"", cs);
    NoneInAppend("\n    " + "\"", a, cs);
  }

  lemma CloseHalfAvoids(b: string, cs: set<char>)
    requires NoneIn(b, cs) && '"' !in cs && '\n' !in cs
    ensures NoneIn(CloseHalf(b), cs)
  {
    NoneInAppend(b, "\"", cs);
    NoneInAppend(b + "\"", "\n", cs);
  }

  /** No piece of the split list holds a comma. */
  lemma CommaPiecesNoComma(ps: seq<string>, a: string, b: string)
    requires forall i :: 0 <= i < |ps| ==> PlainName(ps[i])
    requires PlainName(a) && PlainName(b)
    ensures var ws := Sorting.Map(ps, Entry) + [OpenHalf(a), CloseHalf(b)];
      forall i :: 0 <= i < |ws| ==> NoneIn(ws[i], {','})
  {
    var ws := Sorting.Map(ps, Entry) + [OpenHalf(a), CloseHalf(b)];
    forall i | 0 <= i < |ws| ensures NoneIn(ws[i], {','}) {
      if i < |ps| {
        EntryAvoids(ps[i], {','});
        Sorting.MapAt(ps, Entry, i);
      } else if i == |ps| {
        OpenHalfAvoids(a, {','});
      } else {
        CloseHalfAvoids(b, {','});
      }
    }
  }

  /** The last entry of a list ending in "a,b" is the two halves around the comma. */
  lemma CommaListSplit(ps: seq<string>, a: string, b: string)
    requires forall i :: 0 <= i < |ps| ==> PlainName(ps[i])
    requires PlainName(a) && PlainName(b)
    ensures Split(ListText(ps + [a + "," + b]), {','}) == Sorting.Map(ps, Entry) + [OpenHalf(a), CloseHalf(b)]
  {
    var qs := ps + [a + "," + b];
    ListTextAsEntries(qs);
    assert qs[..|qs| - 1] == ps;
    CommaEntryHalves(a, b);
    JoinSplitLast(Sorting.Map(ps, Entry), OpenHalf(a), ',', CloseHalf(b));
    CommaPiecesNoComma(ps, a, b);
    SplitJoin(Sorting.Map(ps, Entry) + [OpenHalf(a), CloseHalf(b)], ',', {','});
  }

  lemma Regroup(x: string, y: string, a: string, c: string, b: string, z: string, w: string)
    ensures (x + ((y + ((a + c) + b)) + z)) + w == ((x + y) + a) + c + ((b + z) + w)
  {
  }

  /** A piece is cleaned by trimming the white space around it and dropping its quotes. */
  lemma CleanPadded(ws: string, w: string, tail: string)
    requires AllSpace(ws) && AllSpace(tail) && NoEdgeSpace(w)
    ensures CleanEntry(ws + w + tail) == RemoveChars(w, QUOTES)
  {
    TrimPadded(ws, w, tail);
  }

  lemma CleanOpenHalf(a: string)
    requires PlainName(a) && NoEdgeSpace(a)
    ensures CleanEntry(OpenHalf(a)) == a
  {
    assert OpenHalf(a) == "\n    " + ("\"" + a) + "" by {
      AppendAssoc("\n    ", "\"", a);
    }
    assert AllSpace("\n    ");
    CleanQuoted("\n    ", "\"" + a, a, "");
  }

  lemma CleanCloseHalf(b: string)
    requires PlainName(b) && NoEdgeSpace(b)
    ensures CleanEntry(CloseHalf(b)) == b
  {
    assert CloseHalf(b) == "" + (b + "\"") + "\n";
    assert AllSpace("\n");
    CleanQuoted("", b + "\"", b, "\n");
  }

  /** A plain name with a quote on one side, padded with white space, cleans to the name. */
  lemma CleanQuoted(ws: string, w: string, a: string, tail: string)
    requires AllSpace(ws) && AllSpace(tail) && PlainName(a) && NoEdgeSpace(a)
    requires w == "\"" + a || w == a + "\""
    ensures CleanEntry(ws + w + tail) == a
  {
    assert NoEdgeSpace(w) by {
      assert w[0] == '"' || w[0] == a[0];
      assert w[|w| - 1] == '"' || w[|w| - 1] == a[|a| - 1];
    }
    CleanPadded(ws, w, tail);
    PlainUnquoted(a);
    assert RemoveChars("\"", QUOTES) == "";
    if w == "\"" + a {
      RemoveCharsAppend("\"", a, QUOTES);
    } else {
      RemoveCharsAppend(a, "\"", QUOTES);
    }
  }

  /** A plain name has no quote to delete. */
  lemma PlainUnquoted(n: string)
    requires PlainName(n)
    ensures RemoveChars(n, QUOTES) == n
  {
    forall i | 0 <= i < |n| ensures n[i] !in QUOTES {
      assert n[i] !in {',', '\'', '"', ']', '$'};
    }
    RemoveCharsNone(n, QUOTES);
  }

  lemma CommaPieceClean(ps: seq<string>, a: string, b: string, i: nat)
    requires forall i :: 0 <= i < |ps| ==> PlainName(ps[i])
    requires PlainName(a) && PlainName(b) && NoEdgeSpace(a) && NoEdgeSpace(b)
    requires i < |ps| + 2
    ensures CleanEntry((Sorting.Map(ps, Entry) + [OpenHalf(a), CloseHalf(b)])[i]) == (ps + [a, b])[i]
  {
    if i < |ps| {
      assert PlainName(ps[i]);
      Sorting.MapAt(ps, Entry, i);
      assert (Sorting.Map(ps, Entry) + [OpenHalf(a), CloseHalf(b)])[i] == Entry(ps[i]) + "";
      EntryClean(ps[i], "");
    } else if i == |ps| {
      CleanOpenHalf(a);
    } else {
      CleanCloseHalf(b);
    }
  }

  lemma CommaPiecesClean(ps: seq<string>, a: string, b: string)
    requires forall i :: 0 <= i < |ps| ==> PlainName(ps[i])
    requires PlainName(a) && PlainName(b) && NoEdgeSpace(a) && NoEdgeSpace(b)
    ensures Sorting.Map(Sorting.Map(ps, Entry) + [OpenHalf(a), CloseHalf(b)], CleanEntry) == ps + [a, b]
  {
    var ws := Sorting.Map(ps, Entry) + [OpenHalf(a), CloseHalf(b)];
    var t := ps + [a, b];
    forall i | 0 <= i < |ws| ensures t[i] == CleanEntry(ws[i]) {
      CommaPieceClean(ps, a, b, i);
    }
    Sorting.MapElementwise(ws, CleanEntry, t);
  }

  /** A list whose last name is "a,b" reads back with a and b as two names. */
  lemma CommaNameParse(ps: seq<string>, a: string, b: string)
    requires forall i :: 0 <= i < |ps| ==> PlainName(ps[i])
    requires PlainName(a) && PlainName(b) && NoEdgeSpace(a) && NoEdgeSpace(b)
    ensures ParseProfiles(ListText(ps + [a + "," + b])) == ps + [a, b]
  {
    var ws := Sorting.Map(ps, Entry) + [OpenHalf(a), CloseHalf(b)];
    var t := ps + [a, b];
    CommaListSplit(ps, a, b);
    CommaPiecesClean(ps, a, b);
    NamesNonEmpty(ps, a, b);
    ParseChain(ListText(ps + [a + "," + b]), ws, t);
  }

  lemma NamesNonEmpty(ps: seq<string>, a: string, b: string)
    requires forall i :: 0 <= i < |ps| ==> PlainName(ps[i])
    requires a != "" && b != ""
    ensures DropEmpty(ps + [a, b]) == ps + [a, b]
  {
    var t := ps + [a, b];
    forall i | 0 <= i < |t| ensures t[i] != "" {
      if i < |ps| {
        assert PlainName(ps[i]);
      }
    }
    DropEmptyNone(t);
  }

  /** Parsing is splitting, cleaning each piece and dropping the empty ones. */
  lemma ParseChain(text: string, ws: seq<string>, t: seq<string>)
    requires Split(text, {','}) == ws && Sorting.Map(ws, CleanEntry) == t && DropEmpty(t) == t
    ensures ParseProfiles(text) == t
  {
  }

  /** The as-written handler accepts a name the file does not list, as one new channel. */
  lemma AddsUnlisted(src: string, apiKey: Json, n: string)
    requires ListedIn(src).Some? && Truthy(apiKey) && n !in ListedIn(src).value
    ensures var r := AddChannelsPost(Fields(Names([n]), apiKey), Some(src));
      var existing := ListedIn(src).value;
      && r.Added? && r.newChannels == [n]
      && r.totalChannels == |existing| + 1
      && r.written == Rewrite(src, existing + [n])
  {
    var existing := ListedIn(src).value;
    assert ChannelRegistry.Unseen([n], existing) == [n] by {
      assert [n][..0] == [];
    }
    AddedWhenUnseen([n], apiKey, src, existing, [n]);
  }

  /** A request with a key and unseen channels is answered with those channels. */
  lemma AddedWhenUnseen(names: seq<string>, apiKey: Json, src: string, existing: seq<string>, added: seq<string>)
    requires |names| > 0 && Truthy(apiKey) && ListedIn(src) == Some(existing)
    requires ChannelRegistry.Unseen(names, existing) == added && |added| > 0
    ensures var r := AddChannelsPost(Fields(Names(names), apiKey), Some(src));
      r.Added? && r.newChannels == added && r.totalChannels == |existing + added|
      && r.written == Rewrite(src, existing + added)
  {
  }

  /** Rewriting a list of plain names followed by "a,b" reads back with a and b as two names. */
  lemma RewriteCommaName(src: string, ps: seq<string>, a: string, b: string)
    requires FindProfiles(src).Some?
    requires forall i :: 0 <= i < |ps| ==> PlainName(ps[i])
    requires PlainName(a) && PlainName(b) && NoEdgeSpace(a) && NoEdgeSpace(b)
    ensures ListedIn(Rewrite(src, ps + [a + "," + b])) == Some(ps + [a, b])
  {
    var updated := ps + [a + "," + b];
    NoneInAppend(a, ",", {'$', ']'});
    NoneInAppend(a + ",", b, {'$', ']'});
    forall i | 0 <= i < |updated| ensures NoneIn(updated[i], {'$', ']'}) {
      if i < |ps| {
        assert PlainName(ps[i]);
      }
    }
    FindAfterReplace(src, updated);
    CommaNameParse(ps, a, b);
  }

  /** The handler as written, given a file that declares plain names and a request for the one
      channel "a,b": it reports one new channel and a total one above the old count, but the
      file it writes declares a and b as two names, one more than the total it reported. */
  lemma CommaNameMiscounted(src: string, apiKey: Json, a: string, b: string)
    requires ListedIn(src).Some? && DeclaresPlain(src) && Truthy(apiKey)
    requires PlainName(a) && PlainName(b) && NoEdgeSpace(a) && NoEdgeSpace(b)
    ensures var r := AddChannelsPost(Fields(Names([a + "," + b]), apiKey), Some(src));
      && r.Added? && r.newChannels == [a + "," + b]
      && r.totalChannels == |ListedIn(src).value| + 1
      && ListedIn(r.written) == Some(ListedIn(src).value + [a, b])
  {
    var n := a + "," + b;
    var existing := ListedIn(src).value;
    assert n[|a|] == ',';
    assert n !in existing by {
      forall i | 0 <= i < |existing| ensures existing[i] != n {
        assert PlainName(existing[i]);
      }
    }
    AddsUnlisted(src, apiKey, n);
    RewriteCommaName(src, existing, a, b);
  }
}
