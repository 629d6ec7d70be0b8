/** The limit on reassembly buffers (mesh/transport.py:715-731): there are never more than
    MAX_REASSEMBLY_BUFS, and a buffer whose missing fragment is lost is never given back. */
module BufferLimit {
  import opened Bytes
  import opened Fragments
  import opened Packet
  import opened Reassembly

  lemma OneMoreKey(bufs: Buffers, key: MsgKey, buf: Buffer)
    requires key !in bufs
    ensures bufs[key := buf].Keys == bufs.Keys + {key} && |bufs[key := buf]| == |bufs| + 1
  {
    assert |bufs| == |bufs.Keys| && |bufs[key := buf]| == |bufs[key := buf].Keys|;
  }

  lemma SameKeys(bufs: Buffers, key: MsgKey, buf: Buffer)
    requires key in bufs
    ensures |bufs[key := buf]| == |bufs|
  {
    assert bufs[key := buf].Keys == bufs.Keys;
    assert |bufs| == |bufs.Keys| && |bufs[key := buf]| == |bufs[key := buf].Keys|;
  }

  lemma FewerKeys(bufs: Buffers, key: MsgKey)
    ensures |bufs - {key}| <= |bufs|
  {
    assert (bufs - {key}).Keys == bufs.Keys - {key};
    assert |bufs| == |bufs.Keys| && |bufs - {key}| == |(bufs - {key}).Keys|;
  }

  lemma FragmentKeepsLimit(bufs: Buffers, key: MsgKey, f: Frag)
    requires |bufs| <= MAX_REASSEMBLY_BUFS && f.msgId == key.1
    ensures |AfterFrag(bufs, key.0, f)| <= MAX_REASSEMBLY_BUFS
  {
    assert (key.0, f.msgId) == key;
    if Completes(bufs, key.0, f) {
      FewerKeys(bufs, key);
    } else if key in bufs {
      SameKeys(bufs, key, BufferWith(bufs, key, f));
    } else if !Refused(bufs, key) {
      OneMoreKey(bufs, key, BufferWith(bufs, key, f));
    }
  }

  /** In every run there are at most MAX_REASSEMBLY_BUFS buffers. */
  lemma {:induction false} BuffersBounded(env: Env, run: seq<Arrival>)
    requires Honest(env) && AllGenuine(env, run)
    ensures |Run(env, run)| <= MAX_REASSEMBLY_BUFS
  {
    if run != [] {
      var init, a := run[..|run| - 1], run[|run| - 1];
      assert a in run;
      BuffersBounded(env, init);
      DatagramIsFragment(env, Run(env, init), a);
      FragmentKeepsLimit(Run(env, init), a.key, FragFor(env, a.key, a.idx));
    }
  }

  /** Each buffered message lacks a fragment, named by `lost`. */
  ghost predicate Lacking(env: Env, bufs: Buffers, lost: map<MsgKey, nat>) {
    forall key :: key in bufs ==>
      key in env.log && key in lost && lost[key] < Total(env, key) && !Buffered(bufs, key, lost[key])
  }

  /** None of the fragments named by `lost` arrives. */
  ghost predicate Withheld(run: seq<Arrival>, lost: map<MsgKey, nat>) {
    forall a :: a in run && a.key in lost ==> a.idx != lost[a.key]
  }

  lemma StuckStep(env: Env, bufs: Buffers, a: Arrival, lost: map<MsgKey, nat>)
    requires Honest(env) && BuffersHonest(env, bufs) && Genuine(env, a) && Lacking(env, bufs, lost)
    requires |bufs| >= MAX_REASSEMBLY_BUFS && (a.key in lost ==> a.idx != lost[a.key])
    ensures After(env, bufs, a).Keys == bufs.Keys && Lacking(env, After(env, bufs, a), lost)
    ensures Delivers(env, bufs, a).None?
  {
    DatagramIsFragment(env, bufs, a);
    FragmentDelivers(env, bufs, a.key, a.idx);
    CompletesWhenLast(env, bufs, a.key, a.idx);
    var bufs' := After(env, bufs, a);
    assert a.key in bufs ==> !LastMissing(env, bufs, a.key, a.idx);
    forall key | key in bufs' ensures !Buffered(bufs', key, lost[key]) {
      BufferStep(env, bufs, a, key, lost[key]);
    }
  }

  lemma RunOneMore(env: Env, run: seq<Arrival>, a: Arrival, key: MsgKey)
    requires Honest(env) && AllGenuine(env, run) && Genuine(env, a)
    ensures AllGenuine(env, run + [a]) && Run(env, run + [a]) == After(env, Run(env, run), a)
    ensures Deliveries(env, run + [a], key) ==
            Deliveries(env, run, key) + (if a.key == key && Delivers(env, Run(env, run), a).Some? then 1 else 0)
  {
    assert (run + [a])[..|run|] == run;
  }

  /** The buffers of `run` wait for the lost fragments, and the message was delivered so often. */
  ghost predicate Waits(env: Env, run: seq<Arrival>, keys: set<MsgKey>, lost: map<MsgKey, nat>, key: MsgKey, times: nat)
    requires Honest(env)
  {
    && AllGenuine(env, run) && Run(env, run).Keys == keys && Lacking(env, Run(env, run), lost)
    && Deliveries(env, run, key) == times
  }

  lemma WaitsOneMore(env: Env, run: seq<Arrival>, a: Arrival, keys: set<MsgKey>, lost: map<MsgKey, nat>,
                     key: MsgKey, times: nat)
    requires Honest(env) && Genuine(env, a) && Waits(env, run, keys, lost, key, times)
    requires |keys| >= MAX_REASSEMBLY_BUFS && (a.key in lost ==> a.idx != lost[a.key])
    ensures Waits(env, run + [a], keys, lost, key, times)
  {
    RunHonest(env, run);
    var bufs := Run(env, run);
    assert |bufs| == |bufs.Keys|;
    StuckStep(env, bufs, a, lost);
    RunOneMore(env, run, a, key);
  }

  lemma LastOf(env: Env, run: seq<Arrival>, more: seq<Arrival>, lost: map<MsgKey, nat>)
    requires more != [] && AllGenuine(env, more) && Withheld(more, lost)
    ensures var init, a := more[..|more| - 1], more[|more| - 1];
            && run + more == run + init + [a] && AllGenuine(env, init) && Withheld(init, lost)
            && Genuine(env, a) && (a.key in lost ==> a.idx != lost[a.key])
  {
    var init, a := more[..|more| - 1], more[|more| - 1];
    assert a in more;
    assert forall x :: x in init ==> x in more;
  }

  /** Once every buffer waits for a lost fragment and none is left, no message is delivered any more:
      the buffered ones stay incomplete and all others, from every peer, are refused. */
  lemma {:induction false} FullBuffersRefuse(env: Env, run: seq<Arrival>, more: seq<Arrival>, keys: set<MsgKey>,
                                             lost: map<MsgKey, nat>, key: MsgKey, times: nat)
    requires Honest(env) && AllGenuine(env, more) && |keys| >= MAX_REASSEMBLY_BUFS
    requires Waits(env, run, keys, lost, key, times) && Withheld(more, lost)
    ensures Waits(env, run + more, keys, lost, key, times)
  {
    if more == [] {
      assert run + more == run;
    } else {
      LastOf(env, run, more, lost);
      FullBuffersRefuse(env, run, more[..|more| - 1], keys, lost, key, times);
      WaitsOneMore(env, run + more[..|more| - 1], more[|more| - 1], keys, lost, key, times);
    }
  }

  // ---------------------------------------------------------------- a run that fills them

  /** First fragments of different messages of two or more. */
  ghost predicate FirstFragments(env: Env, firsts: seq<Arrival>) {
    && (forall i :: 0 <= i < |firsts| ==>
          Genuine(env, firsts[i]) && firsts[i].idx == 0 && Total(env, firsts[i].key) >= 2)
    && forall i, j :: 0 <= i < j < |firsts| ==> firsts[i].key != firsts[j].key
  }

  function KeysOf(firsts: seq<Arrival>): set<MsgKey> {
    if firsts == [] then {} else KeysOf(firsts[..|firsts| - 1]) + {firsts[|firsts| - 1].key}
  }

  /** The second fragment of each of these messages. */
  function Seconds(firsts: seq<Arrival>): map<MsgKey, nat> {
    map key | key in KeysOf(firsts) :: 1
  }

  lemma {:induction false} KeyOfSome(firsts: seq<Arrival>, key: MsgKey) returns (i: nat)
    requires key in KeysOf(firsts)
    ensures i < |firsts| && firsts[i].key == key
  {
    i := |firsts| - 1;
    if firsts[i].key != key {
      i := KeyOfSome(firsts[..i], key);
    }
  }

  lemma {:induction false} KeyOfNone(firsts: seq<Arrival>, key: MsgKey)
    requires forall i :: 0 <= i < |firsts| ==> firsts[i].key != key
    ensures key !in KeysOf(firsts)
  {
    if firsts != [] {
      KeyOfNone(firsts[..|firsts| - 1], key);
    }
  }

  lemma FirstsSplit(env: Env, firsts: seq<Arrival>)
    requires FirstFragments(env, firsts) && firsts != []
    ensures var init, a := firsts[..|firsts| - 1], firsts[|firsts| - 1];
            && firsts == init + [a] && FirstFragments(env, init) && a.key !in KeysOf(init)
            && Genuine(env, a) && a.idx == 0 && Total(env, a.key) >= 2
  {
    var n := |firsts| - 1;
    KeyOfNone(firsts[..n], firsts[n].key);
  }

  lemma FirstStep(env: Env, bufs: Buffers, a: Arrival)
    requires Honest(env) && BuffersHonest(env, bufs) && Genuine(env, a) && a.idx == 0 && Total(env, a.key) >= 2
    requires a.key !in bufs && |bufs| < MAX_REASSEMBLY_BUFS
    ensures After(env, bufs, a) == bufs[a.key := map[0 := FragFor(env, a.key, 0).chunk]]
    ensures Delivers(env, bufs, a).None?
  {
    DatagramIsFragment(env, bufs, a);
    FragmentDelivers(env, bufs, a.key, 0);
    CompletesWhenLast(env, bufs, a.key, 0);
    assert !Buffered(bufs, a.key, 1);
  }

  /** Each of these messages has its first fragment buffered and no other. */
  ghost predicate Filled(bufs: Buffers, firsts: seq<Arrival>) {
    && bufs.Keys == KeysOf(firsts) && |bufs| == |firsts|
    && forall key :: key in bufs ==> bufs[key].Keys == {0}
  }

  lemma KeysOfOneMore(firsts: seq<Arrival>, a: Arrival)
    ensures KeysOf(firsts + [a]) == KeysOf(firsts) + {a.key}
  {
    assert (firsts + [a])[..|firsts|] == firsts;
  }

  lemma FilledOneMore(bufs: Buffers, firsts: seq<Arrival>, a: Arrival, chunk: seq<byte>)
    requires Filled(bufs, firsts) && a.key !in bufs
    ensures Filled(bufs[a.key := map[0 := chunk]], firsts + [a])
  {
    KeysOfOneMore(firsts, a);
    OneMoreKey(bufs, a.key, map[0 := chunk]);
  }

  lemma {:induction false} FirstsFill(env: Env, firsts: seq<Arrival>, key: MsgKey)
    requires Honest(env) && FirstFragments(env, firsts) && |firsts| <= MAX_REASSEMBLY_BUFS
    ensures AllGenuine(env, firsts) && Filled(Run(env, firsts), firsts) && Deliveries(env, firsts, key) == 0
  {
    if firsts != [] {
      var init, a := firsts[..|firsts| - 1], firsts[|firsts| - 1];
      FirstsSplit(env, firsts);
      FirstsFill(env, init, key);
      FillOneMore(env, init, a, key);
    }
  }

  lemma FillOneMore(env: Env, firsts: seq<Arrival>, a: Arrival, key: MsgKey)
    requires Honest(env) && AllGenuine(env, firsts)
    requires Filled(Run(env, firsts), firsts) && |firsts| < MAX_REASSEMBLY_BUFS
    requires Genuine(env, a) && a.idx == 0 && Total(env, a.key) >= 2 && a.key !in KeysOf(firsts)
    requires Deliveries(env, firsts, key) == 0
    ensures AllGenuine(env, firsts + [a]) && Filled(Run(env, firsts + [a]), firsts + [a])
    ensures Deliveries(env, firsts + [a], key) == 0
  {
    RunHonest(env, firsts);
    FirstStep(env, Run(env, firsts), a);
    RunOneMore(env, firsts, a, key);
    FilledOneMore(Run(env, firsts), firsts, a, FragFor(env, a.key, 0).chunk);
  }

  lemma FilledLacks(env: Env, bufs: Buffers, firsts: seq<Arrival>)
    requires FirstFragments(env, firsts) && Filled(bufs, firsts)
    ensures Lacking(env, bufs, Seconds(firsts))
  {
    forall k | k in bufs ensures k in env.log && k in Seconds(firsts) && !Buffered(bufs, k, 1) && 1 < Total(env, k) {
      var i := KeyOfSome(firsts, k);
    }
  }

  /** MAX_REASSEMBLY_BUFS messages that each lose their second fragment stop all other messages: whatever
      else arrives, in whatever order, nothing is delivered. */
  lemma LostFragmentsBlockEveryone(env: Env, firsts: seq<Arrival>, more: seq<Arrival>, key: MsgKey)
    requires Honest(env) && FirstFragments(env, firsts) && |firsts| == MAX_REASSEMBLY_BUFS
    requires AllGenuine(env, more) && Withheld(more, Seconds(firsts))
    ensures AllGenuine(env, firsts + more) && Deliveries(env, firsts + more, key) == 0
  {
    FirstsFill(env, firsts, key);
    FilledLacks(env, Run(env, firsts), firsts);
    var keys := Run(env, firsts).Keys;
    assert |keys| == |Run(env, firsts)|;
    FullBuffersRefuse(env, firsts, more, keys, Seconds(firsts), key, 0);
  }
}
