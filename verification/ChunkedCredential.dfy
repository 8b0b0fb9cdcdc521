/** Credential values that are longer than one vault blob. */
module ChunkedCredential {
  import opened Faults
  import opened Wrappers
  import opened Lines

  const CHUNK_THRESHOLD := 2000
  const MAX_CHUNK_COUNT := (64 * 1024 * 1024) / CHUNK_THRESHOLD

  /** One credential: the main one of an account, or one of its chunks.  Accounts contain no
    '#', so different targets have different names. */
  datatype Target = Main(account: string) | Chunk(account: string, index: nat)

  /** A stored blob by its format byte; `count` is absent when the JSON header is malformed. */
  datatype Blob = Empty | Raw(payload: seq<Byte>) | Chunked(count: Option<int>) | UnknownFormat

  type Vault = map<Target, Blob>

  datatype AccessError = NotFound | Unavailable

  /** The UTF-8 codec: whatever it encodes it decodes again. */
  datatype Codec = Codec(encode: string -> seq<Byte>, decode: seq<Byte> -> Option<string>) {
    ghost predicate RoundTrips() {
      forall v :: decode(encode(v)) == Some(v)
    }
  }

  // ---------- reading ----------

  /** The bytes of the first `n` chunks, if all are there in raw format. */
  function Joined(vault: Vault, account: string, n: nat): Option<seq<Byte>> {
    if n == 0 then Some([])
    else
      var front := Joined(vault, account, n - 1);
      var last := Chunk(account, n - 1);
      if front.Some? && last in vault && vault[last].Raw? then Some(front.value + vault[last].payload) else None
  }

  function Decoded(codec: Codec, bytes: seq<Byte>): Result<string, AccessError> {
    match codec.decode(bytes)
    case Some(v) => Ok(v)
    case None => Err(Unavailable)
  }

  /** What reading an account gives. */
  function Reading(codec: Codec, vault: Vault, account: string): Result<string, AccessError> {
    if Main(account) !in vault then Err(NotFound)
    else
      match vault[Main(account)]
      case Empty => Ok("")
      case Raw(payload) => Decoded(codec, payload)
      case UnknownFormat => Err(Unavailable)
      case Chunked(count) =>
        if count.None? || !(1 <= count.value <= MAX_CHUNK_COUNT) then Err(Unavailable)
        else
          var bytes := Joined(vault, account, count.value);
          if bytes.None? then Err(Unavailable) else Decoded(codec, bytes.value)
  }

  /** The bytes that a main blob stands for: its own, or those of all its chunks in order. */
  ghost predicate StandsFor(vault: Vault, account: string, bytes: seq<Byte>)
    requires Main(account) in vault
  {
    match vault[Main(account)]
    case Raw(payload) => bytes == payload
    case Chunked(Some(count)) =>
      1 <= count <= MAX_CHUNK_COUNT && exists parts: seq<seq<Byte>> :: |parts| == count && AreParts(vault, account, parts) && bytes == Concat(parts)
    case _ => false
  }

  ghost predicate AreParts(vault: Vault, account: string, parts: seq<seq<Byte>>) {
    forall i: nat :: i < |parts| ==> Chunk(account, i) in vault && vault[Chunk(account, i)] == Raw(parts[i])
  }

  function Concat(parts: seq<seq<Byte>>): seq<Byte> {
    if parts == [] then [] else Concat(parts[..|parts| - 1]) + parts[|parts| - 1]
  }

  lemma {:induction false} JoinedIff(vault: Vault, account: string, n: nat) returns (parts: seq<seq<Byte>>)
    ensures Joined(vault, account, n).Some? ==>
              |parts| == n && AreParts(vault, account, parts) && Joined(vault, account, n).value == Concat(parts)
    ensures forall others: seq<seq<Byte>> :: |others| == n && AreParts(vault, account, others) ==>
              Joined(vault, account, n) == Some(Concat(others))
  {
    parts := [];
    if n > 0 {
      var front := JoinedIff(vault, account, n - 1);
      if Joined(vault, account, n).Some? {
        parts := front + [vault[Chunk(account, n - 1)].payload];
        assert parts[..n - 1] == front;
      }
      forall others: seq<seq<Byte>> | |others| == n && AreParts(vault, account, others) ensures Joined(vault, account, n) == Some(Concat(others)) {
        assert AreParts(vault, account, others[..n - 1]);
      }
    }
  }

  /** An account that is absent is not found, an empty one reads as empty, and any other gives
    the text of its bytes or is unavailable. */
  lemma ReadingIff(codec: Codec, vault: Vault, account: string)
    ensures Reading(codec, vault, account) == Err(NotFound) <==> Main(account) !in vault
    ensures forall v :: Reading(codec, vault, account) == Ok(v) <==>
              && Main(account) in vault
              && if vault[Main(account)].Empty? then v == ""
                 else exists bytes :: StandsFor(vault, account, bytes) && codec.decode(bytes) == Some(v)
  {
    if Main(account) in vault && vault[Main(account)].Chunked? && vault[Main(account)].count.Some? {
      var n := vault[Main(account)].count.value;
      if 1 <= n <= MAX_CHUNK_COUNT {
        var parts := JoinedIff(vault, account, n);
        hide Joined, AreParts, Concat;
        forall bytes ensures StandsFor(vault, account, bytes) <==> Joined(vault, account, n) == Some(bytes) {
        }
      }
    }
  }

  /** What reading gives after a value was stored: the value, unless it needs too many chunks. */
  function Stored(codec: Codec, value: string): Result<string, AccessError> {
    if |codec.encode(value)| <= MAX_CHUNK_COUNT * CHUNK_THRESHOLD then Ok(value) else Err(Unavailable)
  }

  predicate Unchunked(vault: Vault, account: string) {
    Main(account) in vault ==> !vault[Main(account)].Chunked?
  }

  predicate SameMain(a: Vault, b: Vault, account: string) {
    (Main(account) in a <==> Main(account) in b) && (Main(account) in a ==> a[Main(account)] == b[Main(account)])
  }

  /** Everything that belongs to other accounts is the same. */
  ghost predicate SameElsewhere(a: Vault, b: Vault, account: string) {
    forall t: Target :: t.account != account ==> (t in a <==> t in b) && (t in a ==> a[t] == b[t])
  }

  /** Chunks play no part in reading an account whose main blob is not a chunk header. */
  lemma MainDecides(codec: Codec, a: Vault, b: Vault, account: string)
    requires SameMain(a, b, account) && Unchunked(a, account)
    ensures Reading(codec, a, account) == Reading(codec, b, account)
  {
  }

  lemma {:induction false} JoinedElsewhere(a: Vault, b: Vault, account: string, n: nat)
    requires forall k :: 0 <= k < n ==> (Chunk(account, k) in a <==> Chunk(account, k) in b)
    requires forall k :: 0 <= k < n && Chunk(account, k) in a ==> a[Chunk(account, k)] == b[Chunk(account, k)]
    ensures Joined(a, account, n) == Joined(b, account, n)
  {
    if n > 0 {
      JoinedElsewhere(a, b, account, n - 1);
    }
  }

  /** Other accounts read the same. */
  lemma OthersUnaffected(codec: Codec, a: Vault, b: Vault, account: string, other: string)
    requires SameElsewhere(a, b, account) && other != account
    ensures Reading(codec, a, other) == Reading(codec, b, other)
  {
    assert SameMain(a, b, other);
    if Main(other) in a && a[Main(other)].Chunked? && a[Main(other)].count.Some? && a[Main(other)].count.value >= 1 {
      JoinedElsewhere(a, b, other, a[Main(other)].count.value);
    }
  }

  // ---------- cutting into chunks ----------

  function Cut(length: nat, k: nat): (c: nat)
    ensures c <= length
  {
    if k * CHUNK_THRESHOLD < length then k * CHUNK_THRESHOLD else length
  }

  function Slice(bytes: seq<Byte>, k: nat): seq<Byte> {
    assert k * CHUNK_THRESHOLD <= (k + 1) * CHUNK_THRESHOLD;
    bytes[Cut(|bytes|, k)..Cut(|bytes|, k + 1)]
  }

  ghost predicate ChunksWritten(vault: Vault, account: string, bytes: seq<Byte>, n: nat) {
    forall k :: 0 <= k < n ==> Chunk(account, k) in vault && vault[Chunk(account, k)] == Raw(Slice(bytes, k))
  }

  /** Chunks join to the bytes they were cut from, wherever the cuts fall. */
  lemma {:induction false} SlicesJoin(vault: Vault, account: string, bytes: seq<Byte>, n: nat)
    requires ChunksWritten(vault, account, bytes, n)
    ensures Joined(vault, account, n) == Some(bytes[..Cut(|bytes|, n)])
  {
    hide Slice, Cut;
    if n == 0 {
      CutAtStart(bytes);
    } else {
      SlicesJoin(vault, account, bytes, n - 1);
      assert vault[Chunk(account, n - 1)] == Raw(Slice(bytes, n - 1));
      SliceExtends(bytes, n - 1);
    }
  }

  lemma CutAtStart(bytes: seq<Byte>)
    ensures bytes[..Cut(|bytes|, 0)] == []
  {
  }

  lemma SliceExtends(bytes: seq<Byte>, k: nat)
    ensures bytes[..Cut(|bytes|, k)] + Slice(bytes, k) == bytes[..Cut(|bytes|, k + 1)]
  {
  }

  function ChunkCount(length: nat): nat {
    (length + CHUNK_THRESHOLD - 1) / CHUNK_THRESHOLD
  }

  lemma WrittenReadsBack(codec: Codec, vault: Vault, account: string, value: string)
    requires codec.RoundTrips() && |codec.encode(value)| > CHUNK_THRESHOLD
    requires ChunksWritten(vault, account, codec.encode(value), ChunkCount(|codec.encode(value)|))
    requires Main(account) in vault && vault[Main(account)] == Chunked(Some(ChunkCount(|codec.encode(value)|)))
    ensures Reading(codec, vault, account) == Stored(codec, value)
  {
    var bytes := codec.encode(value);
    var n := ChunkCount(|bytes|);
    SlicesJoin(vault, account, bytes, n);
    assert n * CHUNK_THRESHOLD >= |bytes|;
    assert bytes[..|bytes|] == bytes;
  }

  // ---------- the backend ----------

  class WindowsCredentialBackend {
    const codec: Codec
    var vault: Vault

    constructor (codec: Codec, vault: Vault)
      ensures this.codec == codec && this.vault == vault
    {
      this.codec, this.vault := codec, vault;
    }

    method WriteBlob(t: Target, b: Blob, calm: bool) returns (o: Outcome)
      modifies this
      ensures vault == old(vault) || vault == old(vault)[t := b]
      ensures o == Done ==> vault == old(vault)[t := b]
      ensures calm ==> o == Done
    {
      var f := Draw(calm);
      if f.Published() {
        vault := vault[t := b];
      }
      o := f.Ending();
    }

    /** A target that does not exist counts as deleted. */
    method DeleteTarget(t: Target, calm: bool) returns (o: Outcome)
      modifies this
      ensures vault == old(vault) || vault == old(vault) - {t}
      ensures o == Done ==> vault == old(vault) - {t}
      ensures calm ==> o == Done
    {
      var f := Draw(calm);
      if f.Published() {
        vault := vault - {t};
      }
      o := f.Ending();
    }

    method Get(account: string) returns (r: Result<string, AccessError>)
      ensures r == Reading(codec, vault, account)
    {
      if Main(account) !in vault {
        return Err(NotFound);
      }
      match vault[Main(account)]
      case Empty => return Ok("");
      case Raw(payload) => return Decoded(codec, payload);
      case UnknownFormat => return Err(Unavailable);
      case Chunked(count) =>
        if count.None? || !(1 <= count.value <= MAX_CHUNK_COUNT) {
          return Err(Unavailable);
        }
        var parts: seq<Byte> := [];
        for i := 0 to count.value
          invariant Joined(vault, account, i) == Some(parts)
        {
          var chunk := Chunk(account, i);
          if chunk !in vault || !vault[chunk].Raw? {
            NoneStays(vault, account, i + 1, count.value);
            return Err(Unavailable);
          }
          parts := parts + vault[chunk].payload;
        }
        r := Decoded(codec, parts);
    }

    /** Deletes every chunk of the account, in any order. */
    method DeleteChunks(account: string, calm: bool) returns (o: Outcome)
      modifies this
      ensures SameMain(old(vault), vault, account) && SameElsewhere(old(vault), vault, account)
      ensures o == Done ==> forall i :: Chunk(account, i) !in vault
      ensures calm ==> o == Done
    {
      var stale := set t | t in vault && t.Chunk? && t.account == account;
      while stale != {}
        invariant SameMain(old(vault), vault, account) && SameElsewhere(old(vault), vault, account)
        invariant forall i :: Chunk(account, i) in vault ==> Chunk(account, i) in stale
        invariant forall t :: t in stale ==> t.Chunk? && t.account == account
        decreases stale
      {
        var t :| t in stale;
        o := DeleteTarget(t, calm);
        if o != Done {
          return;
        }
        stale := stale - {t};
      }
      o := Done;
    }

    method WriteChunks(account: string, bytes: seq<Byte>, calm: bool) returns (o: Outcome)
      requires forall i :: Chunk(account, i) !in vault
      modifies this
      ensures SameMain(old(vault), vault, account) && SameElsewhere(old(vault), vault, account)
      ensures o == Done ==> ChunksWritten(vault, account, bytes, ChunkCount(|bytes|))
      ensures o == Done ==> forall i :: i >= ChunkCount(|bytes|) ==> Chunk(account, i) !in vault
      ensures calm ==> o == Done
    {
      for i := 0 to ChunkCount(|bytes|)
        invariant SameMain(old(vault), vault, account) && SameElsewhere(old(vault), vault, account)
        invariant ChunksWritten(vault, account, bytes, i)
        invariant forall k :: k >= i ==> Chunk(account, k) !in vault
      {
        o := WriteBlob(Chunk(account, i), Raw(Slice(bytes, i)), calm);
        if o != Done {
          return;
        }
      }
      o := Done;
    }

    /** Stores a value.  When the old main blob was absent or not a chunk header, a reader sees
      the old state or the new one after every prefix of the writes. */
    method Set(account: string, value: string, calm: bool) returns (o: Outcome)
      requires codec.RoundTrips()
      modifies this
      ensures SameElsewhere(old(vault), vault, account)
      ensures o == Done ==> Reading(codec, vault, account) == Stored(codec, value)
      ensures Unchunked(old(vault), account) ==>
                || Reading(codec, vault, account) == Reading(codec, old(vault), account)
                || Reading(codec, vault, account) == Stored(codec, value)
      ensures o == Done ==> forall i: nat :: Chunk(account, i) in vault ==>
                |codec.encode(value)| > CHUNK_THRESHOLD && i < ChunkCount(|codec.encode(value)|)
      ensures calm ==> o == Done
    {
      var bytes := codec.encode(value);
      o := DeleteChunks(account, calm);
      if o != Done {
        if Unchunked(old(vault), account) {
          MainDecides(codec, old(vault), vault, account);
        }
        return;
      }
      if |bytes| > CHUNK_THRESHOLD {
        o := WriteChunks(account, bytes, calm);
        if o != Done {
          if Unchunked(old(vault), account) {
            MainDecides(codec, old(vault), vault, account);
          }
          return;
        }
      }
      o := Publish(account, value, calm, old(vault));
    }

    /** The commit point: the main blob. */
    method Publish(account: string, value: string, calm: bool, ghost before: Vault) returns (o: Outcome)
      requires codec.RoundTrips() && SameMain(before, vault, account)
      requires |codec.encode(value)| > CHUNK_THRESHOLD ==>
                 ChunksWritten(vault, account, codec.encode(value), ChunkCount(|codec.encode(value)|))
      modifies this
      ensures forall t :: t != Main(account) ==> (t in vault <==> t in old(vault)) && (t in vault ==> vault[t] == old(vault)[t])
      ensures o == Done ==> Reading(codec, vault, account) == Stored(codec, value)
      ensures Unchunked(before, account) ==>
                || Reading(codec, vault, account) == Reading(codec, before, account)
                || Reading(codec, vault, account) == Stored(codec, value)
      ensures calm ==> o == Done
    {
      var bytes := codec.encode(value);
      ghost var unpublished := vault;
      var main := if |bytes| <= CHUNK_THRESHOLD then Raw(bytes) else Chunked(Some(ChunkCount(|bytes|)));
      o := WriteBlob(Main(account), main, calm);
      if Unchunked(before, account) {
        MainDecides(codec, before, unpublished, account);
      }
      if vault == unpublished[Main(account) := main] && |bytes| > CHUNK_THRESHOLD {
        assert ChunksWritten(vault, account, bytes, ChunkCount(|bytes|));
        WrittenReadsBack(codec, vault, account, value);
      }
    }

    /** Deletes a value: after the main blob is gone the account is not found, whatever happens
      to the chunks. */
    method Delete(account: string, calm: bool) returns (o: Outcome)
      modifies this
      ensures SameElsewhere(old(vault), vault, account)
      ensures Reading(codec, vault, account) == Reading(codec, old(vault), account) || Reading(codec, vault, account) == Err(NotFound)
      ensures o == Done ==> forall t :: t in vault ==> t.account != account
      ensures calm ==> o == Done
    {
      o := DeleteTarget(Main(account), calm);
      if o != Done {
        return;
      }
      o := DeleteChunks(account, calm);
    }
  }

  lemma {:induction false} NoneStays(vault: Vault, account: string, i: nat, n: nat)
    requires i <= n && Joined(vault, account, i).None?
    ensures Joined(vault, account, n).None?
  {
    if i < n {
      NoneStays(vault, account, i, n - 1);
    }
  }

  // ---------- where old-or-new ends ----------

  /** Overwriting a value that is chunked is not old-or-new: the first stale chunk that is
    deleted already makes the value unreadable. */
  lemma LosingAChunk(codec: Codec, vault: Vault, account: string, n: nat, k: nat)
    requires Main(account) in vault && vault[Main(account)] == Chunked(Some(n)) && k < n
    ensures Reading(codec, vault - {Chunk(account, k)}, account) == Err(Unavailable)
  {
    var lost := vault - {Chunk(account, k)};
    assert Joined(lost, account, k + 1).None?;
    NoneStays(lost, account, k + 1, n);
  }
}
