/** Redis keys of the cache: a shared prefix and parts, joined by colons. */
module CacheKeys {
  import opened Wrappers
  import opened Text

  const COLON := {':'}

  /** Parts lose their outer colons, and empty ones are dropped. */
  function Clean(parts: seq<string>): seq<string> {
    if parts == [] then [] else
    var part := Trim(parts[0], COLON);
    (if part == "" then [] else [part]) + Clean(parts[1..])
  }

  datatype Keyer = Keyer(prefix: string) {
    function Segments(parts: seq<string>): seq<string> {
      (if prefix == "" then [] else [prefix]) + Clean(parts)
    }

    method Key(parts: seq<string>) returns (key: string)
      ensures key == Join(Segments(parts), ':')
    {
      var all: seq<string> := if prefix == "" then [] else [prefix];
      for i := 0 to |parts|
        invariant Segments(parts) == all + Clean(parts[i..])
      {
        assert parts[i..][1..] == parts[i + 1..];
        var part := Trim(parts[i], COLON);
        if part != "" {
          all := all + [part];
        }
      }
      assert all + [] == all;
      return Join(all, ':');
    }
  }

  /** No part of a key is empty, or begins or ends in a colon; and each is a given part without its outer
      colons, in order. */
  lemma {:induction false} CleanParts(parts: seq<string>)
    ensures forall i :: 0 <= i < |Clean(parts)| ==> Clean(parts)[i] != "" && Trimmed(Clean(parts)[i], COLON)
    ensures (forall i :: 0 <= i < |parts| ==> parts[i] != "" && Trimmed(parts[i], COLON)) ==> Clean(parts) == parts
  {
    if parts != [] {
      CleanParts(parts[1..]);
      var l, r := TrimCuts(parts[0], COLON);
    }
  }

  /** Nor is a keyer's prefix. */
  lemma PrefixIsTrimmed(prefix: string)
    ensures Trimmed(NewKeyer(prefix).prefix, COLON)
    ensures Trimmed(prefix, COLON) ==> NewKeyer(prefix).prefix == prefix
  {
    var l, r := TrimCuts(prefix, COLON);
  }

  function NewKeyer(prefix: string): Keyer {
    Keyer(Trim(prefix, COLON))
  }

  /** The colon-separated pieces of every segment, in order. */
  function Pieces(segments: seq<string>): seq<string> {
    if segments == [] then [] else Split(segments[0], ':') + Pieces(segments[1..])
  }

  predicate Nonempty(segments: seq<string>) {
    forall i :: 0 <= i < |segments| ==> segments[i] != ""
  }

  lemma {:induction false} CleanIsNonempty(parts: seq<string>)
    ensures Nonempty(Clean(parts))
  {
    if parts != [] {
      CleanIsNonempty(parts[1..]);
    }
  }

  lemma {:induction false} SplitOfJoin(segments: seq<string>)
    requires segments != []
    ensures Split(Join(segments, ':'), ':') == Pieces(segments)
  {
    if |segments| == 1 {
      assert Pieces(segments) == Split(segments[0], ':') + [];
    } else {
      SplitAppend(segments[0], Join(segments[1..], ':'), ':');
      SplitOfJoin(segments[1..]);
    }
  }

  lemma {:induction false} JoinOfPieces(segments: seq<string>, segments': seq<string>)
    requires Nonempty(segments) && Nonempty(segments')
    ensures Join(segments, ':') == Join(segments', ':') <==> Pieces(segments) == Pieces(segments')
  {
    if segments != [] && segments' != [] {
      SplitOfJoin(segments);
      SplitOfJoin(segments');
      JoinSplit(Join(segments, ':'), ':');
      JoinSplit(Join(segments', ':'), ':');
    }
  }

  /** Two part lists share a key exactly when they have the same colon-separated pieces. */
  lemma KeysCollideExactly(keyer: Keyer, parts: seq<string>, parts': seq<string>)
    ensures Join(keyer.Segments(parts), ':') == Join(keyer.Segments(parts'), ':')
       <==> Pieces(Clean(parts)) == Pieces(Clean(parts'))
  {
    CleanIsNonempty(parts);
    CleanIsNonempty(parts');
    JoinOfPieces(keyer.Segments(parts), keyer.Segments(parts'));
    SegmentPieces(keyer, parts);
    SegmentPieces(keyer, parts');
    var p := if keyer.prefix == "" then [] else Split(keyer.prefix, ':');
    assert (p + Pieces(Clean(parts)))[|p|..] == Pieces(Clean(parts));
    assert (p + Pieces(Clean(parts')))[|p|..] == Pieces(Clean(parts'));
  }

  lemma SegmentPieces(keyer: Keyer, parts: seq<string>)
    ensures Pieces(keyer.Segments(parts)) ==
              (if keyer.prefix == "" then [] else Split(keyer.prefix, ':')) + Pieces(Clean(parts))
  {
    if keyer.prefix == "" {
      assert [] + Clean(parts) == Clean(parts);
    } else {
      assert keyer.Segments(parts)[1..] == Clean(parts);
    }
  }

  lemma {:induction false} TrimOfFree(s: string)
    requires Free(s, ':')
    ensures Trim(s, COLON) == s
  {
  }

  lemma {:induction false} PiecesOfFree(parts: seq<string>)
    requires forall i :: 0 <= i < |parts| ==> parts[i] != "" && Free(parts[i], ':')
    ensures Clean(parts) == parts && Pieces(parts) == parts
  {
    if parts != [] {
      TrimOfFree(parts[0]);
      SplitFree(parts[0], ':');
      PiecesOfFree(parts[1..]);
    }
  }

  /** Distinct token hashes, which are base64url text without colons, have distinct cache keys; so
      the cache may be taken as a map from hashes, whatever the prefix. */
  lemma DistinctHashesDistinctKeys(prefix: string, hash: string, hash': string)
    requires hash != "" && Free(hash, ':') && hash' != "" && Free(hash', ':') && hash != hash'
    ensures Join(NewKeyer(prefix).Segments(["cache", "session", hash]), ':')
         != Join(NewKeyer(prefix).Segments(["cache", "session", hash']), ':')
  {
    var parts, parts' := ["cache", "session", hash], ["cache", "session", hash'];
    assert parts[2] != parts'[2];
    FreePartsDistinctKeys(NewKeyer(prefix), parts, parts');
  }

  lemma FreePartsDistinctKeys(keyer: Keyer, parts: seq<string>, parts': seq<string>)
    requires forall i :: 0 <= i < |parts| ==> parts[i] != "" && Free(parts[i], ':')
    requires forall i :: 0 <= i < |parts'| ==> parts'[i] != "" && Free(parts'[i], ':')
    ensures Join(keyer.Segments(parts), ':') == Join(keyer.Segments(parts'), ':') <==> parts == parts'
  {
    KeysCollideExactly(keyer, parts, parts');
    PiecesOfFree(parts);
    PiecesOfFree(parts');
  }
}
