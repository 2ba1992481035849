/**
 The on-disk format of the redo log and what recovery makes of a disk.

 A disk is a sequence of blocks, a block a sequence of words. The log occupies
 the blocks `logStart .. logStart + nlog`: a header block followed by slots.
 Word 0 of the header is the number of logged blocks and the following words
 are their home block numbers.
 */
module LogFormat {

  type Block = seq<nat>

  datatype Geometry = Geometry(
    nblocks: nat,   // size of the disk in blocks
    words: nat,     // words per block
    logStart: nat,  // log.start
    nlog: nat,      // log.size, the header included
    logSize: nat,   // LOGSIZE
    maxOp: nat,     // MAXOPBLOCKS
    nbuf: nat)      // NBUF
  {
    /** What `initlog` and the layout computed by mkfs promise. */
    ghost predicate Valid() {
      && 1 <= nlog && logStart + nlog <= nblocks
      && 1 + logSize < words
    }

    ghost predicate InLog(b: nat) {
      logStart <= b < logStart + nlog
    }

    /** A block that holds file-system content, not log content. */
    ghost predicate Home(b: nat) {
      b < nblocks && !InLog(b)
    }
  }

  ghost predicate Shaped(g: Geometry, d: seq<Block>) {
    |d| == g.nblocks && forall b :: 0 <= b < |d| ==> |d[b]| == g.words
  }

  // ----- the header block -----

  /** The block numbers a header block lists. */
  function Entries(head: Block): (l: seq<nat>)
  {
    if |head| > 0 && head[0] < |head| then head[1..1 + head[0]] else []
  }

  /** The header block after `write_head`: words past the count keep their old content. */
  function WithEntries(head: Block, l: seq<nat>): (h: Block)
    requires |l| < |head|
    ensures |h| == |head|
  {
    [|l|] + l + head[1 + |l|..]
  }

  lemma HeadRoundTrip(head: Block, l: seq<nat>)
    requires |l| < |head|
    ensures Entries(WithEntries(head, l)) == l
    ensures WithEntries(head, l)[1 + |l|..] == head[1 + |l|..]
  {
    assert WithEntries(head, l)[1..1 + |l|] == l;
  }

  // ----- recovery as a function of the disk -----

  ghost predicate Distinct(l: seq<nat>) {
    forall i, j :: 0 <= i < j < |l| ==> l[i] != l[j]
  }

  /** A list of blocks a header may legally name. */
  ghost predicate Loggable(g: Geometry, l: seq<nat>) {
    && |l| < g.nlog
    && Distinct(l)
    && forall i :: 0 <= i < |l| ==> g.Home(l[i])
  }

  /** Disk `d` after copying the first `k` slots to the blocks listed in `l`. */
  function Installed(g: Geometry, d: seq<Block>, l: seq<nat>, k: nat): (r: seq<Block>)
    requires k <= |l| < g.nlog
    requires g.logStart + g.nlog <= |d|
    ensures |r| == |d|
    decreases k
  {
    if k == 0 then d
    else
      var r := Installed(g, d, l, k - 1);
      if l[k - 1] < |r| then r[l[k - 1] := r[g.logStart + k]] else r
  }

  /** Everything `recover_from_log` does to a disk. */
  function Replay(g: Geometry, d: seq<Block>): (r: seq<Block>)
    requires 1 <= g.nlog && g.logStart + g.nlog <= |d|
    requires |Entries(d[g.logStart])| < g.nlog
    ensures |r| == |d|
  {
    var l := Entries(d[g.logStart]);
    var r := Installed(g, d, l, |l|);
    if |r[g.logStart]| > 0 then r[g.logStart := WithEntries(r[g.logStart], [])] else r
  }

  lemma {:induction false} InstalledAt(g: Geometry, d: seq<Block>, l: seq<nat>, k: nat, b: nat)
    requires g.Valid() && |d| == g.nblocks && Loggable(g, l)
    requires k <= |l| && b < |d|
    ensures b !in l[..k] ==> Installed(g, d, l, k)[b] == d[b]
    ensures forall i :: 0 <= i < k && l[i] == b ==> Installed(g, d, l, k)[b] == d[g.logStart + 1 + i]
  {
    if k > 0 {
      InstalledAt(g, d, l, k - 1, b);
      InstalledAt(g, d, l, k - 1, g.logStart + k);
      assert l[..k] == l[..k - 1] + [l[k - 1]];
    }
  }

  /**
   The disk either carries image `img` in place, or carries a complete log from
   which the missing blocks of `img` can be copied.
   */
  ghost predicate Recoverable(g: Geometry, d: seq<Block>, img: seq<Block>)
  {
    && g.Valid() && Shaped(g, d) && |img| == g.nblocks
    && var l := Entries(d[g.logStart]);
    && Loggable(g, l)
    && (forall i :: 0 <= i < |l| ==> d[g.logStart + 1 + i] == img[l[i]])
    && (forall b: nat {:trigger g.Home(b)} :: g.Home(b) && b !in l ==> d[b] == img[b])
  }

  ghost predicate SameHome(g: Geometry, d: seq<Block>, img: seq<Block>) {
    && |d| == |img| == g.nblocks
    && forall b: nat {:trigger g.Home(b)} :: g.Home(b) ==> d[b] == img[b]
  }

  lemma ReplayAt(g: Geometry, d: seq<Block>, b: nat)
    requires g.Valid() && Shaped(g, d) && Loggable(g, Entries(d[g.logStart])) && g.Home(b)
    ensures var l := Entries(d[g.logStart]);
      && (b !in l ==> Replay(g, d)[b] == d[b])
      && (forall i :: 0 <= i < |l| && l[i] == b ==> Replay(g, d)[b] == d[g.logStart + 1 + i])
  {
    var l := Entries(d[g.logStart]);
    assert l[..|l|] == l;
    InstalledAt(g, d, l, |l|, b);
  }

  lemma ReplayClears(g: Geometry, d: seq<Block>)
    requires g.Valid() && Shaped(g, d) && Loggable(g, Entries(d[g.logStart]))
    ensures Replay(g, d)[g.logStart] == WithEntries(d[g.logStart], [])
    ensures Entries(Replay(g, d)[g.logStart]) == []
  {
    var l := Entries(d[g.logStart]);
    InstalledAt(g, d, l, |l|, g.logStart);
    HeadRoundTrip(d[g.logStart], []);
  }

  lemma RecoverableReplays(g: Geometry, d: seq<Block>, img: seq<Block>)
    requires Recoverable(g, d, img)
    ensures SameHome(g, Replay(g, d), img)
  {
    forall b: nat | g.Home(b) ensures Replay(g, d)[b] == img[b] {
      ReplayAt(g, d, b);
    }
  }

  lemma ReplaysRecoverable(g: Geometry, d: seq<Block>, img: seq<Block>)
    requires g.Valid() && Shaped(g, d) && |img| == g.nblocks
    requires Loggable(g, Entries(d[g.logStart])) && SameHome(g, Replay(g, d), img)
    ensures Recoverable(g, d, img)
  {
    var l := Entries(d[g.logStart]);
    forall i | 0 <= i < |l| ensures d[g.logStart + 1 + i] == img[l[i]] {
      ReplayAt(g, d, l[i]);
    }
    forall b: nat | g.Home(b) && b !in l ensures d[b] == img[b] {
      ReplayAt(g, d, b);
    }
  }

  /**
   The two readings of a crashed disk agree: the invariant says exactly that replay yields the image.
   Either way replay leaves an empty header.
   */
  lemma RecoverableIffReplay(g: Geometry, d: seq<Block>, img: seq<Block>)
    requires g.Valid() && Shaped(g, d) && |img| == g.nblocks
    requires Loggable(g, Entries(d[g.logStart]))
    ensures Recoverable(g, d, img) <==> SameHome(g, Replay(g, d), img)
    ensures Entries(Replay(g, d)[g.logStart]) == []
  {
    ReplayClears(g, d);
    if Recoverable(g, d, img) { RecoverableReplays(g, d, img); }
    if SameHome(g, Replay(g, d), img) { ReplaysRecoverable(g, d, img); }
  }

  /** Recovery is idempotent: replaying a recovered disk changes nothing. */
  lemma ReplayIdempotent(g: Geometry, d: seq<Block>)
    requires g.Valid() && Shaped(g, d) && Loggable(g, Entries(d[g.logStart]))
    ensures Entries(Replay(g, d)[g.logStart]) == []
    ensures Replay(g, Replay(g, d)) == Replay(g, d)
  {
    ReplayClears(g, d);
    assert WithEntries(WithEntries(d[g.logStart], []), []) == WithEntries(d[g.logStart], []);
  }
}
