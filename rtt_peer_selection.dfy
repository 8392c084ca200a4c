/**
 * The RTT demo's choice of access points to range: 802.11mc responders
 * first, then other access points until the platform's peer limit is
 * reached, and the BSSID to SSID map shown next to the results.
 * `RangingRequest.getMaxPeers()` is the parameter `maxPeers`.
 */
module PeerSelection {
  import opened Wrappers

  /** The fields of `android.net.wifi.ScanResult` the selection reads. */
  datatype ScanResult = ScanResult(bssid: string, ssid: string, is80211mcResponder: bool)

  /** The responders of `s`, in scan order. */
  function Responders(s: seq<ScanResult>): (r: seq<ScanResult>)
    ensures |r| <= |s|
    ensures forall i :: 0 <= i < |r| ==> r[i].is80211mcResponder
  {
    if s == [] then []
    else
      var last := s[|s| - 1];
      Responders(s[..|s| - 1]) + (if last.is80211mcResponder then [last] else [])
  }

  /** The access points of `s` that are not responders, in scan order. */
  function NonResponders(s: seq<ScanResult>): (r: seq<ScanResult>)
    ensures |r| <= |s|
    ensures forall i :: 0 <= i < |r| ==> !r[i].is80211mcResponder
  {
    if s == [] then []
    else
      var last := s[|s| - 1];
      NonResponders(s[..|s| - 1]) + (if last.is80211mcResponder then [] else [last])
  }

  /** Filtering into the two groups loses and invents nothing. */
  lemma {:induction false} PartitionIsPermutation(s: seq<ScanResult>)
    ensures multiset(Responders(s)) + multiset(NonResponders(s)) == multiset(s)
    ensures |Responders(s)| + |NonResponders(s)| == |s|
  {
    if s != [] {
      var init, last := s[..|s| - 1], s[|s| - 1];
      PartitionIsPermutation(init);
      assert s == init + [last];
    }
  }

  /** An access point is among the responders exactly when it is in the scan and answers 802.11mc. */
  lemma {:induction false} RespondersAreTheScannedResponders(s: seq<ScanResult>, a: ScanResult)
    ensures a in Responders(s) <==> a in s && a.is80211mcResponder
  {
    if s != [] {
      var init, last := s[..|s| - 1], s[|s| - 1];
      RespondersAreTheScannedResponders(init, a);
      assert s == init + [last];
    }
  }

  /**
   * What `scanResultsAvailable` ranges: the responders, then the other
   * access points, cut to `maxPeers`. With fewer scan results than
   * `maxPeers`, `remove(0)` on the exhausted list throws.
   */
  function Selection(scanResults: seq<ScanResult>, maxPeers: nat): (r: Result<seq<ScanResult>>)
    ensures r.Err? <==> |scanResults| < maxPeers
    ensures r.Err? ==> r.error == IndexOutOfBounds
    ensures r.Ok? ==> |r.value| == maxPeers && multiset(r.value) <= multiset(scanResults)
  {
    if |scanResults| < maxPeers then Err(IndexOutOfBounds)
    else
      PartitionIsPermutation(scanResults);
      var all := Responders(scanResults) + NonResponders(scanResults);
      assert all == all[..maxPeers] + all[maxPeers..];
      assert multiset(all) == multiset(all[..maxPeers]) + multiset(all[maxPeers..]);
      Ok(all[..maxPeers])
  }

  /**
   * `scanResultsAvailable`, the lines that pick the peers: responders are
   * moved to a new list, the new list is filled from the head of the scan
   * list, and `subList` cuts it to `maxPeers`.
   */
  method SelectPeers(scanResults: seq<ScanResult>, maxPeers: nat) returns (r: Result<seq<ScanResult>>)
    ensures r == Selection(scanResults, maxPeers)
  {
    var newScanResults, remaining := MoveResponders(scanResults);
    PartitionIsPermutation(scanResults);
    while |newScanResults| < maxPeers
      invariant newScanResults + remaining == Responders(scanResults) + NonResponders(scanResults)
    {
      if remaining == [] {
        return Err(IndexOutOfBounds);
      }
      newScanResults, remaining := newScanResults + [remaining[0]], remaining[1..];
    }
    assert |scanResults| >= maxPeers;
    var count := if |newScanResults| < maxPeers then |newScanResults| else maxPeers;
    r := Ok(newScanResults[..count]);
    assert newScanResults[..count] == (newScanResults + remaining)[..maxPeers];
  }

  /**
   * The iterator loop of `scanResultsAvailable`: every responder is appended
   * to the new list and removed from the scan list through the iterator.
   */
  method MoveResponders(scanResults: seq<ScanResult>) returns (newScanResults: seq<ScanResult>, remaining: seq<ScanResult>)
    ensures newScanResults == Responders(scanResults)
    ensures remaining == NonResponders(scanResults)
  {
    remaining := scanResults;
    newScanResults := [];
    var i := 0;
    ghost var k := 0;
    while i < |remaining|
      invariant 0 <= k <= |scanResults| && 0 <= i <= |remaining|
      invariant remaining[..i] == NonResponders(scanResults[..k])
      invariant remaining[i..] == scanResults[k..]
      invariant newScanResults == Responders(scanResults[..k])
      decreases |remaining| - i
    {
      assert scanResults[..k + 1][..k] == scanResults[..k];
      assert remaining[i] == scanResults[k];
      if remaining[i].is80211mcResponder {
        newScanResults := newScanResults + [remaining[i]];
        remaining := remaining[..i] + remaining[i + 1..];
      } else {
        i := i + 1;
      }
      k := k + 1;
    }
    assert scanResults[..k] == scanResults;
  }

  /** When the scan has enough results, the selection is the first `maxPeers` of both groups in a row. */
  lemma SelectionOfEnough(scanResults: seq<ScanResult>, maxPeers: nat)
    requires |scanResults| >= maxPeers
    ensures |Responders(scanResults)| + |NonResponders(scanResults)| == |scanResults|
    ensures Selection(scanResults, maxPeers) == Ok((Responders(scanResults) + NonResponders(scanResults))[..maxPeers])
  {
    PartitionIsPermutation(scanResults);
  }

  /** In the selection every responder comes before every other access point. */
  lemma RespondersComeFirst(scanResults: seq<ScanResult>, maxPeers: nat)
    requires Selection(scanResults, maxPeers).Ok?
    ensures var r := Selection(scanResults, maxPeers).value;
            forall i, j :: 0 <= i < j < |r| && r[j].is80211mcResponder ==> r[i].is80211mcResponder
  {
    var rs, ns := Responders(scanResults), NonResponders(scanResults);
    SelectionOfEnough(scanResults, maxPeers);
    var r := Selection(scanResults, maxPeers).value;
    assert |r| == maxPeers;
    forall i, j | 0 <= i < j < |r| && r[j].is80211mcResponder
      ensures r[i].is80211mcResponder
    {
      assert r[j] == (rs + ns)[j];
      assert r[i] == rs[i];
    }
  }

  /**
   * The selection is the first responders in scan order followed by the first
   * other access points in scan order.
   */
  lemma SelectionKeepsScanOrder(scanResults: seq<ScanResult>, maxPeers: nat)
    requires Selection(scanResults, maxPeers).Ok?
    ensures var rs, ns := Responders(scanResults), NonResponders(scanResults);
            var a := if |rs| < maxPeers then |rs| else maxPeers;
            a <= |rs| && maxPeers - a <= |ns|
            && Selection(scanResults, maxPeers).value == rs[..a] + ns[..maxPeers - a]
  {
    var rs, ns := Responders(scanResults), NonResponders(scanResults);
    SelectionOfEnough(scanResults, maxPeers);
    var a := if |rs| < maxPeers then |rs| else maxPeers;
    assert (rs + ns)[..maxPeers] == rs[..a] + ns[..maxPeers - a];
  }

  /** A prefix holds no element more often than the whole sequence. */
  lemma PrefixMultiset(s: seq<ScanResult>, n: nat)
    requires n <= |s|
    ensures multiset(s[..n]) <= multiset(s)
  {
    assert s == s[..n] + s[n..];
  }

  /**
   * With at least `maxPeers` scan results the selection has exactly
   * `maxPeers` entries, all from the scan, none more often than scanned.
   */
  lemma FullSelection(scanResults: seq<ScanResult>, maxPeers: nat)
    requires |scanResults| >= maxPeers
    ensures Selection(scanResults, maxPeers).Ok?
    ensures |Selection(scanResults, maxPeers).value| == maxPeers
    ensures multiset(Selection(scanResults, maxPeers).value) <= multiset(scanResults)
  {
    SelectionOfEnough(scanResults, maxPeers);
    var both := Responders(scanResults) + NonResponders(scanResults);
    PartitionIsPermutation(scanResults);
    PrefixMultiset(both, maxPeers);
  }

  /** With at least `maxPeers` responders only responders are ranged: the first `maxPeers` of them. */
  lemma EnoughResponders(scanResults: seq<ScanResult>, maxPeers: nat)
    requires |Responders(scanResults)| >= maxPeers
    ensures Selection(scanResults, maxPeers) == Ok(Responders(scanResults)[..maxPeers])
  {
    PartitionIsPermutation(scanResults);
    assert (Responders(scanResults) + NonResponders(scanResults))[..maxPeers] == Responders(scanResults)[..maxPeers];
  }

  /** Fewer scan results than peer slots make the fill loop throw. */
  lemma TooFewResultsThrow(scanResults: seq<ScanResult>, maxPeers: nat)
    requires |scanResults| < maxPeers
    ensures Selection(scanResults, maxPeers) == Err(IndexOutOfBounds)
  {
  }

  /** `toUpperCase(Locale.US)` on ASCII letters; other characters are kept. */
  function UpperCase(s: string): (r: string)
    ensures |r| == |s|
    ensures forall i :: 0 <= i < |s| ==> ('a' <= s[i] <= 'z' ==> r[i] as int == s[i] as int - 32)
    ensures forall i :: 0 <= i < |s| ==> (!('a' <= s[i] <= 'z') ==> r[i] == s[i])
  {
    if s == [] then []
    else [if 'a' <= s[0] <= 'z' then (s[0] as int - 32) as char else s[0]] + UpperCase(s[1..])
  }

  /** Upper-casing twice changes nothing more. */
  lemma UpperCaseIsIdempotent(s: string)
    ensures UpperCase(UpperCase(s)) == UpperCase(s)
  {
    var u := UpperCase(s);
    assert forall i :: 0 <= i < |u| ==> !('a' <= u[i] <= 'z');
  }

  /** The map the loop of `createMacToApMap` has built after the entries of `s`. */
  function MacToAp(s: seq<ScanResult>): (m: map<string, string>)
    ensures |m| <= |s|
    ensures s != [] ==> UpperCase(s[|s| - 1].bssid) in m && m[UpperCase(s[|s| - 1].bssid)] == s[|s| - 1].ssid
  {
    if s == [] then map[]
    else
      var last := s[|s| - 1];
      MacToAp(s[..|s| - 1])[UpperCase(last.bssid) := last.ssid]
  }

  /** `createMacToApMap`: one `put` per scan result, in list order. */
  method CreateMacToApMap(scanResults: seq<ScanResult>) returns (result: map<string, string>)
    ensures result == MacToAp(scanResults)
  {
    result := map[];
    var i := 0;
    while i < |scanResults|
      invariant 0 <= i <= |scanResults|
      invariant result == MacToAp(scanResults[..i])
    {
      assert scanResults[..i + 1][..i] == scanResults[..i];
      result := result[UpperCase(scanResults[i].bssid) := scanResults[i].ssid];
      i := i + 1;
    }
    assert scanResults[..i] == scanResults;
  }

  /** The keys are exactly the upper-cased BSSIDs of the scan. */
  lemma {:induction false} MacToApKeys(s: seq<ScanResult>, key: string)
    ensures key in MacToAp(s) <==> exists i :: 0 <= i < |s| && UpperCase(s[i].bssid) == key
  {
    if s != [] {
      var init, last := s[..|s| - 1], s[|s| - 1];
      assert MacToAp(s) == MacToAp(init)[UpperCase(last.bssid) := last.ssid];
      MacToApKeys(init, key);
      if UpperCase(last.bssid) == key {
        assert UpperCase(s[|s| - 1].bssid) == key;
      } else if key in MacToAp(init) {
        var i :| 0 <= i < |init| && UpperCase(init[i].bssid) == key;
        assert s[i] == init[i];
      } else {
        forall i | 0 <= i < |s| ensures UpperCase(s[i].bssid) != key {
          if i < |init| { assert s[i] == init[i]; }
        }
      }
    }
  }

  /**
   * A key maps to the SSID of the LAST scan result with that key: later
   * entries overwrite earlier ones.
   */
  lemma {:induction false} MacToApHoldsLastSsid(s: seq<ScanResult>, i: int)
    requires 0 <= i < |s|
    requires forall j :: i < j < |s| ==> UpperCase(s[j].bssid) != UpperCase(s[i].bssid)
    ensures UpperCase(s[i].bssid) in MacToAp(s)
    ensures MacToAp(s)[UpperCase(s[i].bssid)] == s[i].ssid
  {
    var init := s[..|s| - 1];
    if i < |s| - 1 {
      assert s[i] == init[i];
      forall j | i < j < |init| ensures UpperCase(init[j].bssid) != UpperCase(init[i].bssid) {
        assert init[j] == s[j];
      }
      MacToApHoldsLastSsid(init, i);
    }
  }
}
