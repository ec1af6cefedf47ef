/** `gateway/artifact_log.py` in memory: the append-only log that Merkle leaves are read from. */
module ArtifactLog {
  import opened Basics

  datatype Entry = Entry(
    seqNo: int, artifactType: Text, artifactId: Text, artifactHash: Text, agentKid: Text, tenant: Text, createdAt: Text)

  /** `xs[:n]` of Python: a negative bound counts from the end. */
  function Take<T>(xs: seq<T>, n: int): (r: seq<T>)
    ensures r <= xs
  {
    if n >= 0 then (if n <= |xs| then xs[..n] else xs)
    else if -n <= |xs| then xs[..|xs| + n] else []
  }

  /** The entries after a sequence number, as the comprehension filters them. */
  function Later(entries: seq<Entry>, afterSeq: int): seq<Entry> {
    if entries == [] then []
    else (if entries[0].seqNo > afterSeq then [entries[0]] else []) + Later(entries[1..], afterSeq)
  }

  /** Entry `i` has number `i + 1`. */
  predicate Numbered(entries: seq<Entry>) {
    forall i | 0 <= i < |entries| :: entries[i].seqNo == i + 1
  }

  function Hashes(entries: seq<Entry>): (r: seq<Text>)
    ensures |r| == |entries| && forall i | 0 <= i < |r| :: r[i] == entries[i].artifactHash
  {
    seq(|entries|, i requires 0 <= i < |entries| => entries[i].artifactHash)
  }

  class Log {
    const tenant: Text
    var memory: seq<Entry>
    var seqNo: int

    constructor (tenant: Text)
      ensures this.tenant == tenant && memory == [] && Valid()
    {
      this.tenant := tenant;
      memory, seqNo := [], 0;
    }

    predicate Valid()
      reads this
    {
      Numbered(memory) && seqNo == |memory|
    }

    method Append(artifactType: Text, artifactId: Text, artifactHash: Text, agentKid: Text, now: Text) returns (entry: Entry)
      requires Valid()
      modifies this
      ensures Valid() && memory == old(memory) + [entry]
      ensures entry == Entry(|memory|, artifactType, artifactId, artifactHash, agentKid, tenant, now)
    {
      seqNo := seqNo + 1;
      entry := Entry(seqNo, artifactType, artifactId, artifactHash, agentKid, tenant, now);
      memory := memory + [entry];
    }

    /** `get_entries_since` */
    method GetEntriesSince(afterSeq: int, limit: int) returns (entries: seq<Entry>)
      ensures entries == Take(Later(memory, afterSeq), limit)
    {
      entries := [];
      assert Later([], afterSeq) == [];
      assert memory[..0] == [];
      for i := 0 to |memory|
        invariant entries == Later(memory[..i], afterSeq)
      {
        LaterAppend(memory[..i], memory[i], afterSeq);
        assert memory[..i + 1] == memory[..i] + [memory[i]];
        if memory[i].seqNo > afterSeq {
          entries := entries + [memory[i]];
        }
      }
      assert memory[..|memory|] == memory;
      entries := Take(entries, limit);
    }

    /** `get_all_hashes_since`: the entries come with their default limit of 500. */
    method GetAllHashesSince(afterSeq: int) returns (hashes: seq<Text>)
      ensures hashes == Hashes(Take(Later(memory, afterSeq), 500))
    {
      var entries := GetEntriesSince(afterSeq, 500);
      hashes := Hashes(entries);
    }
  }

  lemma {:induction false} LaterAppend(entries: seq<Entry>, e: Entry, afterSeq: int)
    ensures Later(entries + [e], afterSeq) == Later(entries, afterSeq) + if e.seqNo > afterSeq then [e] else []
  {
    if entries == [] {
      assert entries + [e] == [e];
    } else {
      assert (entries + [e])[1..] == entries[1..] + [e];
      LaterAppend(entries[1..], e, afterSeq);
    }
  }

  lemma NothingLater(afterSeq: int)
    ensures Later([], afterSeq) == []
  {
  }

  /** In a log, filtering by number is cutting off a prefix. */
  lemma {:induction false} LaterIsSuffix(entries: seq<Entry>, afterSeq: int)
    requires Numbered(entries)
    ensures Later(entries, afterSeq) ==
            if afterSeq < 0 then entries else if afterSeq < |entries| then entries[afterSeq..] else []
    decreases |entries|
  {
    hide Later;
    if entries != [] {
      var before, e := entries[..|entries| - 1], entries[|entries| - 1];
      LaterIsSuffix(before, afterSeq);
      LaterAppend(before, e, afterSeq);
      assert entries == before + [e];
      if 0 <= afterSeq < |before| {
        assert before[afterSeq..] + [e] == entries[afterSeq..];
      }
    } else {
      NothingLater(afterSeq);
    }
  }

  /** A page is the next stretch of the log, empty only at its end. */
  lemma PageIsStretch(entries: seq<Entry>, afterSeq: int, limit: int)
    requires Numbered(entries) && limit >= 1 && afterSeq >= 0
    ensures var page := Take(Later(entries, afterSeq), limit);
            && (page == [] <==> afterSeq >= |entries|)
            && (page != [] ==>
                  && afterSeq + |page| <= |entries| && page == entries[afterSeq..afterSeq + |page|]
                  && page[|page| - 1].seqNo == afterSeq + |page|)
  {
    LaterIsSuffix(entries, afterSeq);
  }

  lemma LaterSplits(entries: seq<Entry>, m: nat, n: nat)
    requires Numbered(entries) && m <= n <= |entries|
    ensures Later(entries, m) == entries[m..n] + Later(entries, n)
  {
    hide Later, Numbered;
    LaterIsSuffix(entries, m);
    LaterIsSuffix(entries, n);
    assert entries[m..] == entries[m..n] + entries[n..];
  }

  lemma NothingLeft(entries: seq<Entry>, afterSeq: int)
    requires Numbered(entries) && afterSeq >= |entries|
    ensures Later(entries, afterSeq) == []
  {
    hide Later, Numbered;
    LaterIsSuffix(entries, afterSeq);
  }

  /** Reading on from the last number seen, page after page, until a page is empty. */
  function Pages(entries: seq<Entry>, afterSeq: int, limit: int): seq<Entry>
    requires Numbered(entries) && limit >= 1 && afterSeq >= 0
    decreases if afterSeq < |entries| then |entries| - afterSeq else 0
  {
    PageIsStretch(entries, afterSeq, limit);
    var page := Take(Later(entries, afterSeq), limit);
    if page == [] then [] else page + Pages(entries, page[|page| - 1].seqNo, limit)
  }

  lemma PagesUnfold(entries: seq<Entry>, afterSeq: int, limit: int)
    requires Numbered(entries) && limit >= 1 && afterSeq >= 0
    ensures var page := Take(Later(entries, afterSeq), limit);
            && (page == [] ==> Pages(entries, afterSeq, limit) == [])
            && (page != [] ==> Pages(entries, afterSeq, limit) == page + Pages(entries, afterSeq + |page|, limit))
  {
    hide Later, Take, Numbered;
    PageIsStretch(entries, afterSeq, limit);
  }

  /** Paging with any limit reads every later entry once, in order. */
  lemma {:induction false} PagesCoverLog(entries: seq<Entry>, afterSeq: int, limit: int)
    requires Numbered(entries) && limit >= 1 && afterSeq >= 0
    ensures Pages(entries, afterSeq, limit) == Later(entries, afterSeq)
    decreases if afterSeq < |entries| then |entries| - afterSeq else 0
  {
    hide Later, Take, Numbered, Pages;
    PageIsStretch(entries, afterSeq, limit);
    PagesUnfold(entries, afterSeq, limit);
    var page := Take(Later(entries, afterSeq), limit);
    if page != [] {
      var next := afterSeq + |page|;
      PagesCoverLog(entries, next, limit);
      LaterSplits(entries, afterSeq, next);
    } else {
      NothingLeft(entries, afterSeq);
    }
  }

  /** "All" hashes are all exactly when no more than 500 entries are later. */
  lemma AllHashesIff(entries: seq<Entry>, afterSeq: int)
    requires Numbered(entries) && 0 <= afterSeq <= |entries|
    ensures Hashes(Take(Later(entries, afterSeq), 500)) == Hashes(entries[afterSeq..]) <==> |entries| - afterSeq <= 500
  {
    LaterIsSuffix(entries, afterSeq);
    assert |Hashes(entries[afterSeq..])| == |entries| - afterSeq;
  }
}
