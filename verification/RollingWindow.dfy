/** The transfer counters of client/src/main/blocks/protocol.ts: totals, and speeds over the last ten seconds from
    a queue that forgets. */
module RollingWindow {
  const SPEED_WINDOW_MS := 10000

  datatype Entry = Entry(time: int, size: nat)

  datatype Snapshot = Snapshot(bytesUploaded: nat, bytesDownloaded: nat, blocksSeeded: nat, uploadSpeed: real,
                               downloadSpeed: real)

  function Total(log: seq<Entry>): nat {
    if log == [] then 0 else Total(log[..|log| - 1]) + log[|log| - 1].size
  }

  /** The sizes of the entries no older than the cutoff, wherever they stand in the log. */
  function TotalSince(log: seq<Entry>, cutoff: int): nat {
    if log == [] then 0
    else TotalSince(log[..|log| - 1], cutoff) + if log[|log| - 1].time >= cutoff then log[|log| - 1].size else 0
  }

  /** What has been kept of a log: an end of it, without the entries before some cutoff in the past. */
  ghost predicate Kept(recent: seq<Entry>, log: seq<Entry>, latest: int) {
    && |recent| <= |log| && recent == log[|log| - |recent|..]
    && (forall i :: 0 <= i < |log| - |recent| ==> log[i].time < latest - SPEED_WINDOW_MS)
    && (forall i :: 0 <= i < |log| ==> log[i].time <= latest)
    && forall i, j :: 0 <= i < j < |log| ==> log[i].time <= log[j].time
  }

  /** If only entries before the cutoff were forgotten, what was kept adds up to what the whole log would. */
  lemma {:induction false} ForgottenIsOld(recent: seq<Entry>, log: seq<Entry>, cutoff: int)
    requires |recent| <= |log| && recent == log[|log| - |recent|..]
    requires forall i :: 0 <= i < |log| - |recent| ==> log[i].time < cutoff
    requires forall i :: 0 <= i < |recent| ==> recent[i].time >= cutoff
    ensures Total(recent) == TotalSince(log, cutoff)
  {
    if log == [] {
    } else {
      var n := |log| - 1;
      if recent == [] {
        assert log[..n][n..] == [];
        ForgottenIsOld([], log[..n], cutoff);
      } else {
        var r := recent[..|recent| - 1];
        assert r == log[..n][n - |r|..];
        assert recent[|recent| - 1] == log[n];
        ForgottenIsOld(r, log[..n], cutoff);
      }
    }
  }

  lemma TotalSnoc(log: seq<Entry>, e: Entry)
    ensures Total(log + [e]) == Total(log) + e.size
  {
    assert (log + [e])[..|log|] == log;
  }

  lemma RecordKeeps(recent: seq<Entry>, log: seq<Entry>, latest: int, e: Entry)
    requires Kept(recent, log, latest) && latest <= e.time
    ensures Kept(recent + [e], log + [e], e.time)
  {
  }

  /** One direction's counter and queue, for its log. */
  ghost predicate Tracks(bytes: nat, recent: seq<Entry>, log: seq<Entry>, latest: int) {
    bytes == Total(log) && Kept(recent, log, latest)
  }

  lemma TransferTracks(bytes: nat, recent: seq<Entry>, log: seq<Entry>, latest: int, e: Entry)
    requires Tracks(bytes, recent, log, latest) && latest <= e.time
    ensures Tracks(bytes + e.size, recent + [e], log + [e], e.time)
  {
    TotalSnoc(log, e);
    RecordKeeps(recent, log, latest, e);
  }

  lemma TimeTracks(bytes: nat, recent: seq<Entry>, log: seq<Entry>, latest: int, now: int)
    requires Tracks(bytes, recent, log, latest) && latest <= now
    ensures Tracks(bytes, recent, log, now)
  {
  }

  /** The loop that shifts old entries off the front: an entry goes exactly when it is before the cutoff. */
  method Prune(recent: seq<Entry>, ghost log: seq<Entry>, ghost latest: int, now: int) returns (pruned: seq<Entry>)
    requires Kept(recent, log, latest) && latest <= now
    ensures Kept(pruned, log, now)
    ensures forall i :: 0 <= i < |pruned| ==> pruned[i].time >= now - SPEED_WINDOW_MS
    ensures Total(pruned) == TotalSince(log, now - SPEED_WINDOW_MS)
  {
    var cutoff := now - SPEED_WINDOW_MS;
    pruned := recent;
    while |pruned| > 0 && pruned[0].time < cutoff
      invariant Kept(pruned, log, now)
    {
      assert pruned[0] == log[|log| - |pruned|];
      pruned := pruned[1..];
    }
    forall i | 0 <= i < |pruned| ensures pruned[i].time >= cutoff {
      assert pruned[0] == log[|log| - |pruned|] && pruned[i] == log[|log| - |pruned| + i];
    }
    ForgottenIsOld(pruned, log, cutoff);
  }

  /** reduce((sum, e) => sum + e.size, 0) */
  method Sum(entries: seq<Entry>) returns (sum: nat)
    ensures sum == Total(entries)
  {
    sum := 0;
    for i := 0 to |entries|
      invariant sum == Total(entries[..i])
    {
      assert entries[..i + 1][..i] == entries[..i];
      sum := sum + entries[i].size;
    }
    assert entries[..|entries|] == entries;
  }

  class NetworkStats {
    var bytesUploaded: nat
    var bytesDownloaded: nat
    var blocksSeeded: nat
    var recentUploads: seq<Entry>
    var recentDownloads: seq<Entry>
    /** Every transfer since the last reset, and the latest time the clock has shown. */
    ghost var uploads: seq<Entry>
    ghost var downloads: seq<Entry>
    ghost var latest: int

    ghost predicate Valid()
      reads this
    {
      && blocksSeeded == |uploads|
      && Tracks(bytesUploaded, recentUploads, uploads, latest)
      && Tracks(bytesDownloaded, recentDownloads, downloads, latest)
    }

    constructor (now: int)
      ensures Valid() && uploads == [] && downloads == [] && latest == now
    {
      bytesUploaded, bytesDownloaded, blocksSeeded, recentUploads, recentDownloads := 0, 0, 0, [], [];
      uploads, downloads, latest := [], [], now;
    }

    /** A block served to a peer. */
    method RecordUpload(size: nat, now: int)
      requires Valid() && latest <= now
      modifies this
      ensures Valid() && latest == now
      ensures uploads == old(uploads) + [Entry(now, size)] && downloads == old(downloads)
      ensures bytesUploaded == old(bytesUploaded) + size && blocksSeeded == old(blocksSeeded) + 1
      ensures bytesDownloaded == old(bytesDownloaded)
    {
      TransferTracks(bytesUploaded, recentUploads, uploads, latest, Entry(now, size));
      TimeTracks(bytesDownloaded, recentDownloads, downloads, latest, now);
      hide Tracks;
      bytesUploaded := bytesUploaded + size;
      blocksSeeded := blocksSeeded + 1;
      recentUploads := recentUploads + [Entry(now, size)];
      uploads, latest := uploads + [Entry(now, size)], now;
    }

    /** A block received from a peer and found to have the right hash. */
    method RecordDownload(size: nat, now: int)
      requires Valid() && latest <= now
      modifies this
      ensures Valid() && latest == now
      ensures downloads == old(downloads) + [Entry(now, size)] && uploads == old(uploads)
      ensures bytesDownloaded == old(bytesDownloaded) + size
      ensures bytesUploaded == old(bytesUploaded) && blocksSeeded == old(blocksSeeded)
    {
      TransferTracks(bytesDownloaded, recentDownloads, downloads, latest, Entry(now, size));
      TimeTracks(bytesUploaded, recentUploads, uploads, latest, now);
      hide Tracks;
      bytesDownloaded := bytesDownloaded + size;
      recentDownloads := recentDownloads + [Entry(now, size)];
      downloads, latest := downloads + [Entry(now, size)], now;
    }

    /** getNetworkStats: the totals of the whole log, and its last ten seconds divided by ten, although the queues have
        forgotten everything before the previous query's window. */
    method GetNetworkStats(now: int) returns (s: Snapshot)
      requires Valid() && latest <= now
      modifies this
      ensures Valid() && latest == now && uploads == old(uploads) && downloads == old(downloads)
      ensures s.bytesUploaded == Total(uploads) && s.bytesDownloaded == Total(downloads) && s.blocksSeeded == |uploads|
      ensures s.uploadSpeed == TotalSince(uploads, now - 10000) as real / 10.0
      ensures s.downloadSpeed == TotalSince(downloads, now - 10000) as real / 10.0
    {
      hide Kept, Total, TotalSince;
      recentUploads := Prune(recentUploads, uploads, latest, now);
      recentDownloads := Prune(recentDownloads, downloads, latest, now);
      latest := now;
      var uploadBytes := Sum(recentUploads);
      var downloadBytes := Sum(recentDownloads);
      s := Snapshot(bytesUploaded, bytesDownloaded, blocksSeeded,
                    uploadBytes as real / (SPEED_WINDOW_MS as real / 1000.0),
                    downloadBytes as real / (SPEED_WINDOW_MS as real / 1000.0));
    }

    /** resetNetworkStats */
    method Reset()
      requires Valid()
      modifies this
      ensures Valid() && uploads == [] && downloads == [] && latest == old(latest)
    {
      bytesUploaded, bytesDownloaded, blocksSeeded, recentUploads, recentDownloads := 0, 0, 0, [], [];
      uploads, downloads := [], [];
    }
  }
}
