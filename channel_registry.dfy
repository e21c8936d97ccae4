/** The server-side channel registry: a single object holding the list of tracked channel
    names, which can be read, replaced, or extended with the channels it does not hold yet. */
module ChannelRegistry {

  /** The channels a new registry starts with. */
  const DEFAULT_CHANNELS: seq<string> := [
    "matchupvault",
    "wrestler.trivia",
    "callthemoment",
    "street.slamdown",
    "ragequitguy",
    "celebolution",
    "nearmiss529",
    "arena.fever",
    "slidernightmare"
  ]

  /** The elements of xs not in `existing`, in order,
      repeats within xs kept. */
  function Unseen(xs: seq<string>, existing: seq<string>): seq<string>
  {
    if |xs| == 0 then []
    else
      var x := xs[|xs| - 1];
      Unseen(xs[..|xs| - 1], existing) + (if x in existing then [] else [x])
  }

  /** A name is returned exactly when it was requested and is not already present. */
  lemma {:induction false} UnseenMembers(xs: seq<string>, existing: seq<string>, x: string)
    ensures x in Unseen(xs, existing) <==> x in xs && x !in existing
  {
    if |xs| > 0 {
      var init := xs[..|xs| - 1];
      UnseenMembers(init, existing, x);
      assert xs == init + [xs[|xs| - 1]];
    }
  }

  /** Each new name is returned as often as it was requested; a known name never. */
  lemma {:induction false} UnseenCounts(xs: seq<string>, existing: seq<string>, x: string)
    ensures multiset(Unseen(xs, existing))[x] == if x in existing then 0 else multiset(xs)[x]
  {
    if |xs| > 0 {
      var init := xs[..|xs| - 1];
      UnseenCounts(init, existing, x);
      assert xs == init + [xs[|xs| - 1]];
    }
  }

  /** Filtering a concatenation filters each part. */
  lemma {:induction false} UnseenAppend(xs: seq<string>, ys: seq<string>, existing: seq<string>)
    ensures Unseen(xs + ys, existing) == Unseen(xs, existing) + Unseen(ys, existing)
    decreases |ys|
  {
    if |ys| == 0 {
      assert xs + ys == xs;
    } else {
      var init := ys[..|ys| - 1];
      assert (xs + ys)[..|xs + ys| - 1] == xs + init;
      UnseenAppend(xs, init, existing);
    }
  }

  /** Only names are filtered out: with nothing to exclude the input comes back unchanged, and the
      result keeps the input's order (it is the input with the known names deleted). */
  lemma {:induction false} UnseenOfNothing(xs: seq<string>)
    ensures Unseen(xs, []) == xs
  {
    if |xs| > 0 {
      UnseenOfNothing(xs[..|xs| - 1]);
    }
  }

  /** Nothing is new exactly when every requested name is already present. */
  lemma NothingNewIff(xs: seq<string>, existing: seq<string>)
    ensures Unseen(xs, existing) == [] <==> forall i :: 0 <= i < |xs| ==> xs[i] in existing
  {
    var r := Unseen(xs, existing);
    if |r| > 0 {
      UnseenMembers(xs, existing, r[0]);
    }
    if exists i :: 0 <= i < |xs| && xs[i] !in existing {
      var i :| 0 <= i < |xs| && xs[i] !in existing;
      UnseenMembers(xs, existing, xs[i]);
    }
  }

  /** Once the unseen names are added, the same request finds nothing new. */
  lemma UnseenAfterAdding(xs: seq<string>, existing: seq<string>)
    ensures Unseen(xs, existing + Unseen(xs, existing)) == []
  {
    var r := Unseen(xs, existing + Unseen(xs, existing));
    if |r| > 0 {
      var x := r[0];
      UnseenMembers(xs, existing + Unseen(xs, existing), x);
      UnseenMembers(xs, existing, x);
      assert false;
    }
  }

  /** A repeated name in one request is added twice, since only the list before the call is consulted. */
  lemma RepeatsWithinOneCallKept()
    ensures Unseen(["a", "a"], DEFAULT_CHANNELS) == ["a", "a"]
  {
    assert ["a", "a"][..1] == ["a"];
    assert ["a"][..0] == [];
  }

  class ServerStorage {
    var channels: seq<string>

    constructor()
      ensures channels == DEFAULT_CHANNELS
    {
      channels := DEFAULT_CHANNELS;
    }

    /** `getChannels()`: a copy of the list; nothing changes. */
    method GetChannels() returns (r: seq<string>)
      ensures r == channels
    {
      r := channels;
    }

    /** `setChannels(l)`: the list becomes a copy of l. */
    method SetChannels(l: seq<string>)
      modifies this
      ensures channels == l
    {
      channels := l;
    }

    /** `addChannels(newChannels)`: appends the names not already present and returns them. */
    method AddChannels(newChannels: seq<string>) returns (added: seq<string>)
      modifies this
      ensures added == Unseen(newChannels, old(channels))
      ensures channels == old(channels) + added
    {
      added := Unseen(newChannels, channels);
      if |added| > 0 {
        channels := channels + added;
      }
    }
  }

  /** The sequence of calls the registry's contract promises: a set list reads back, and adding
      the same request twice adds nothing the second time. */
  method RegistryScenario(l: seq<string>, req: seq<string>) returns (read: seq<string>, first: seq<string>, second: seq<string>)
    ensures read == l
    ensures first == Unseen(req, l)
    ensures second == []
  {
    var s := new ServerStorage();
    s.SetChannels(l);
    read := s.GetChannels();
    first := s.AddChannels(req);
    UnseenAfterAdding(req, l);
    second := s.AddChannels(req);
  }
}
