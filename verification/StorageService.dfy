/** Upload and download of internal/storage/service.go. */
module StorageService {
  import opened Prelude
  import opened RingOrder
  import opened HashRing
  import Etcdsim
  import opened RingManager
  import opened Replication
  import opened Streams
  import opened Fanout

  datatype UploadResponse = UploadResponse(size: nat, checksum: string, replicaStatus: seq<ReplicaAck>)

  datatype SegmentRecord = SegmentRecord(segmentId: string, locator: Locator, primaryNode: string,
    replicas: seq<string>, checksum: string, size: nat, attributes: map<string, string>)

  // ---------- The objects ----------

  /** The file system as a map from locators to bytes; disks do not fail here. */
  class FS {
    var files: map<Locator, seq<Byte>>

    constructor ()
      ensures files == map[]
    {
      files := map[];
    }

    method Put(locator: Locator, data: seq<Byte>, sha: seq<Byte> -> string) returns (size: nat, checksum: string)
      modifies this
      ensures files == old(files)[locator := data] && size == |data| && checksum == sha(data)
    {
      files := files[locator := data];
      return |data|, sha(data);
    }
  }

  /** A metadata store and the records it was asked to keep; `err` is what each request answers. */
  class MetadataStore {
    const err: Option<string>
    var calls: seq<SegmentRecord>

    constructor (err: Option<string>)
      ensures this.err == err && calls == []
    {
      this.err := err;
      calls := [];
    }

    method PutSegment(record: SegmentRecord) returns (r: Option<string>)
      modifies this
      ensures calls == old(calls) + [record] && r == err
    {
      calls := calls + [record];
      return err;
    }
  }

  class Service {
    const nodeID: string
    const ring: RingManager
    const fs: FS
    const metadata: MetadataStore?
    const replicationFactor: int
    const sha: seq<Byte> -> string

    constructor (nodeID: string, ring: RingManager, fs: FS, metadata: MetadataStore?, replicationFactor: int,
                 sha: seq<Byte> -> string)
      ensures this.nodeID == nodeID && this.ring == ring && this.fs == fs && this.metadata == metadata
      ensures this.sha == sha
      ensures this.replicationFactor == if replicationFactor <= 0 then 3 else replicationFactor
    {
      this.nodeID, this.ring, this.fs, this.metadata, this.sha := nodeID, ring, fs, metadata, sha;
      this.replicationFactor := if replicationFactor <= 0 then 3 else replicationFactor;
    }

    /** The replica set of a segment: the first nodes of its preference order on the current ring. */
    ghost function Holders(h: Header): seq<string>
      requires ring.Valid()
      reads ring, ring.ring, ring.ring.tokens, ring.etcd
    {
      Targets(Take(Preference(ring.ring.Contents(), ring.hash(h.segmentId)), replicationFactor))
    }

    /**
     Waits for all goroutines; each writes its result under the lock when it finishes, in whatever order that happens.
     */
    method Replicate(workers: seq<Worker>) returns (results: Outcomes)
      ensures exists order :: SameWorkers(order, workers) && results == Finish(nodeID, order)
    {
      results := map[nodeID := None];
      ghost var order: seq<Worker> := [];
      var running := workers;
      while running != []
        invariant multiset(order) + multiset(running) == multiset(workers)
        invariant results == Finish(nodeID, order)
        decreases |running|
      {
        var i :| 0 <= i < |running|;
        var finished := running[i];
        assert running == running[..i] + [finished] + running[i + 1..];
        results := results[finished.name := finished.result];
        FinishMore(nodeID, order, finished);
        order := order + [finished];
        running := running[..i] + running[i + 1..];
      }
      assert SameWorkers(order, workers);
    }

    /** One ack for this node, then one per other result, walking the results in any order. */
    method Acknowledge(results: Outcomes) returns (acks: seq<ReplicaAck>)
      ensures multiset(acks) == multiset{AckOf(nodeID, None)} + multiset(OtherAcks(nodeID, results))
    {
      acks := [ReplicaAck(nodeID, true, "")];
      var todo := results.Keys;
      assert WalkedAcks(nodeID, results, todo) == {};
      while todo != {}
        invariant todo <= results.Keys
        invariant multiset(acks) == multiset{AckOf(nodeID, None)} + multiset(WalkedAcks(nodeID, results, todo))
      {
        var name :| name in todo;
        WalkOne(nodeID, results, todo, name);
        todo := todo - {name};
        if name != nodeID {
          var ack := ReplicaAck(name, results[name].None?, "");
          if results[name].Some? {
            ack := ack.(errorMessage := results[name].value);
          }
          acks := acks + [ack];
        }
      }
      assert WalkedAcks(nodeID, results, todo) == OtherAcks(nodeID, results);
    }

    /** The names recorded as replicas: the targets other than this node, in ring order, then the S3 object. */
    method Replicas(targets: seq<string>, results: Outcomes, h: Header) returns (replicas: seq<string>)
      requires forall k :: k in results ==> results[k].None?
      requires forall c :: c in Copies(targets, nodeID, h) ==> c in results
      ensures replicas == Copies(targets, nodeID, h)
    {
      replicas := [];
      NonSelfFacts(targets, nodeID);
      for i := 0 to |targets|
        invariant replicas == NonSelf(targets[..i], nodeID)
      {
        assert targets[..i + 1][..i] == targets[..i];
        if targets[i] == nodeID {
          continue;
        }
        assert targets[i] in NonSelf(targets, nodeID);
        assert targets[i] in Copies(targets, nodeID, h);
        if results[targets[i]].None? {
          replicas := replicas + [targets[i]];
        }
      }
      assert targets[..|targets|] == targets;
      if WantsS3(h) {
        assert Copies(targets, nodeID, h)[|NonSelf(targets, nodeID)|] == S3Name(h);
        if results[S3Name(h)].None? {
          replicas := replicas + [S3Name(h)];
        }
      }
    }

    /**
     Everything after the payload is on disk. `lookup` is what the ring answered, `transport` and `s3` what the
     goroutines return, `order` the order in which they finish.
     */
    method Distribute(h: Header, locator: Locator, lookup: seq<string>, transport: string -> Option<string>,
                      s3: Option<string>, size: nat, checksum: string)
      returns (r: Result<seq<ReplicaAck>, string>, ghost order: seq<Worker>)
      modifies metadata
      ensures r.Err? <==> nodeID !in Targets(lookup)
      ensures r.Err? && metadata != null ==> metadata.calls == old(metadata.calls)
      ensures SameWorkers(order, Workers(Targets(lookup), nodeID, h, transport, s3))
      ensures r.Ok? ==> multiset(r.value) == Acks(Finish(nodeID, order))
      ensures r.Ok? && metadata != null ==>
                metadata.calls == old(metadata.calls) +
                  Records(h, locator, Copies(Targets(lookup), nodeID, h), Finish(nodeID, order), size, checksum)
      ensures r.Ok? && metadata != null ==>
                Recorded(old(metadata.calls), metadata.calls, h, locator, Targets(lookup), Finish(nodeID, order), size,
                         checksum)
    {
      var targets := lookup;
      if |targets| == 0 {
        targets := [nodeID];
      }
      var invalid := ValidateReplicationTargets(targets, nodeID);
      if invalid.Some? {
        return Err(invalid.value), Workers(targets, nodeID, h, transport, s3);
      }
      var workers := Start(targets, h, transport, s3);
      var results := Replicate(workers);
      order :| SameWorkers(order, workers) && results == Finish(nodeID, order);
      var acks := Acknowledge(results);
      var failed := MergeReplicationErrors(results);
      var failure := if failed.None? then None else Some(ReplicationError(failed.value));
      CopiesFinished(targets, nodeID, h, transport, s3, order);
      CopiesInRingOrder(targets, nodeID, h);
      var summary := Summarise(h, locator, targets, results, failure, size, checksum);
      return Ok(acks + summary), order;
    }

    /** An empty ring leaves this node alone responsible. */
    function Targets(lookup: seq<string>): seq<string> {
      if lookup == [] then [nodeID] else lookup
    }

    /**
     PutSegment was called once if no result is a failure, and else not at all; what it was asked to record are the
     header's ID and attributes, the payload's place, size and checksum, this node as primary, and the replicas in ring
     order.
     */
    ghost predicate Recorded(before: seq<SegmentRecord>, after: seq<SegmentRecord>, h: Header, locator: Locator,
                             holders: seq<string>, results: Outcomes, size: nat, checksum: string)
    {
      if exists k :: k in results && results[k].Some? then after == before
      else
        && |after| == |before| + 1 && after[..|before|] == before
        && var rec := after[|before|];
           && rec.segmentId == h.segmentId && rec.attributes == h.attributes && rec.locator == locator
           && rec.size == size && rec.checksum == checksum && rec.primaryNode == nodeID
           && InRingOrder(holders, nodeID, h, rec.replicas)
    }

    /** What an upload must acknowledge: this node, each other key of the results, and the summaries. */
    ghost function Acks(results: Outcomes): multiset<ReplicaAck> {
      multiset{AckOf(nodeID, None)} + multiset(OtherAcks(nodeID, results)) +
      multiset(SummaryAcks(MetadataErr(), AggregateOf(results)))
    }

    /** What it must record: the segment with all its copies, once, if no result is a failure; otherwise nothing. */
    ghost function Records(h: Header, locator: Locator, copies: seq<string>, results: Outcomes, size: nat,
                           checksum: string): seq<SegmentRecord> {
      if AggregateOf(results).None?
      then [SegmentRecord(h.segmentId, locator, nodeID, copies, checksum, size, h.attributes)] else []
    }

    ghost function MetadataErr(): Option<Option<string>> {
      if metadata == null then None else Some(metadata.err)
    }

    /** Records the segment if every copy succeeded, and appends the metadata and replication acks. */
    method Summarise(h: Header, locator: Locator, targets: seq<string>, results: Outcomes, aggregate: Option<string>,
                     size: nat, checksum: string) returns (summary: seq<ReplicaAck>)
      requires aggregate.None? ==> forall k :: k in results ==> results[k].None?
      requires forall c :: c in Copies(targets, nodeID, h) ==> c in results
      modifies metadata
      ensures summary == SummaryAcks(MetadataErr(), aggregate)
      ensures metadata != null ==>
                metadata.calls == old(metadata.calls) +
                  var copies := Copies(targets, nodeID, h);
                  if aggregate.None?
                  then [SegmentRecord(h.segmentId, locator, nodeID, copies, checksum, size, h.attributes)]
                  else []
    {
      summary := [];
      if metadata != null {
        if aggregate.None? {
          var replicas := Replicas(targets, results, h);
          var record := SegmentRecord(h.segmentId, locator, nodeID, replicas, checksum, size, h.attributes);
          var err := metadata.PutSegment(record);
          if err.Some? {
            summary := [ReplicaAck("metadata", false, err.value)];
          } else {
            summary := [ReplicaAck("metadata", true, "")];
          }
        } else {
          summary := [ReplicaAck("metadata", false, aggregate.value)];
        }
      }
      if aggregate.Some? {
        summary := summary + [ReplicaAck("replication", false, aggregate.value)];
      }
    }

    method Locate(h: Header) returns (lookup: seq<string>)
      requires ring.Valid()
      ensures NoDuplicates(lookup) && Targets(lookup) == Holders(h)
    {
      lookup := ring.Lookup(h.segmentId, replicationFactor);
      LookupsNest(ring.ring.Contents(), ring.hash(h.segmentId), replicationFactor);
    }

    /** The receiving half of UploadSegment: nothing is stored before the stream has committed or ended. */
    method ReceiveUpload(stream: Stream) returns (r: Result<Opened, string>)
      ensures match Opening(stream) case None => r.Err? case Some(open) => r == Ok(open)
    {
      if |stream.messages| == 0 {
        return Err(if stream.broken.Some? then stream.broken.value else "EOF");
      }
      if !stream.messages[0].HeaderMsg? || stream.messages[0].header.None? {
        return Err("storage: upload stream missing header");
      }
      var header := stream.messages[0].header.value;
      if header.locator.None? {
        return Err("storage: upload header missing locator");
      }
      if header.segmentId == "" {
        return Err("storage: segment id is required");
      }
      var payload := Assemble(stream.messages[1..], stream.broken);
      if payload.Err? {
        return Err(payload.error);
      }
      return Ok(Opened(header, header.locator.value, payload.value));
    }

    /**
     UploadSegment. The payload is on disk before the replica set is validated, so a refused replica set leaves it
     there; otherwise the response acknowledges every key of the results exactly once.
     */
    method UploadSegment(stream: Stream, transport: string -> Option<string>, s3: Option<string>)
      returns (r: Result<UploadResponse, string>, ghost order: seq<Worker>)
      requires ring.Valid()
      modifies fs, metadata
      ensures match Opening(stream)
              case None =>
                r.Err? && fs.files == old(fs.files) && (metadata != null ==> metadata.calls == old(metadata.calls))
              case Some(open) =>
                var holders := old(Holders(open.header));
                && fs.files == old(fs.files)[open.locator := open.data]
                && (r.Err? <==> nodeID !in holders)
                && SameWorkers(order, Workers(holders, nodeID, open.header, transport, s3))
                && (r.Ok? ==> Responds(r.value, open, Finish(nodeID, order)))
                && (metadata != null ==>
                      metadata.calls == old(metadata.calls) +
                        if r.Err? then []
                        else Records(open.header, open.locator, Copies(holders, nodeID, open.header),
                                     Finish(nodeID, order), |open.data|, sha(open.data)))
                && (metadata != null && r.Ok? ==>
                      Recorded(old(metadata.calls), metadata.calls, open.header, open.locator, holders,
                               Finish(nodeID, order), |open.data|, sha(open.data)))
      ensures BreaksFirst(stream) ==>
                r.Err? && fs.files == old(fs.files) && (metadata != null ==> metadata.calls == old(metadata.calls))
      ensures r.Err? ==>
                (fs.files == old(fs.files) <==>
                 || Opening(stream).None?
                 || (Opening(stream).value.locator in old(fs.files) &&
                     old(fs.files)[Opening(stream).value.locator] == Opening(stream).value.data))
    {
      OpeningMeans(stream);
      var upload := ReceiveUpload(stream);
      if upload.Err? {
        return Err(upload.error), [];
      }
      r, order := StoreAndReplicate(upload.value, transport, s3);
      KeptIff(old(fs.files), upload.value.locator, upload.value.data);
    }

    ghost predicate Responds(resp: UploadResponse, upload: Opened, results: Outcomes) {
      && resp.size == |upload.data| && resp.checksum == sha(upload.data)
      && multiset(resp.replicaStatus) == Acks(results)
    }

    /** The other half of UploadSegment. */
    method StoreAndReplicate(upload: Opened, transport: string -> Option<string>, s3: Option<string>)
      returns (r: Result<UploadResponse, string>, ghost order: seq<Worker>)
      requires ring.Valid()
      modifies fs, metadata
      ensures fs.files == old(fs.files)[upload.locator := upload.data]
      ensures var holders := old(Holders(upload.header));
              && (r.Err? <==> nodeID !in holders)
              && SameWorkers(order, Workers(holders, nodeID, upload.header, transport, s3))
              && (r.Ok? ==> Responds(r.value, upload, Finish(nodeID, order)))
              && (metadata != null ==>
                    metadata.calls == old(metadata.calls) +
                      if r.Err? then []
                      else Records(upload.header, upload.locator, Copies(holders, nodeID, upload.header),
                                   Finish(nodeID, order), |upload.data|, sha(upload.data)))
              && (metadata != null && r.Ok? ==>
                    Recorded(old(metadata.calls), metadata.calls, upload.header, upload.locator, holders,
                             Finish(nodeID, order), |upload.data|, sha(upload.data)))
    {
      var lookup := Locate(upload.header);
      var size, checksum := fs.Put(upload.locator, upload.data, sha);
      var acks;
      acks, order := Distribute(upload.header, upload.locator, lookup, transport, s3, size, checksum);
      if acks.Err? {
        return Err(acks.error), order;
      }
      return Ok(UploadResponse(size, checksum, acks.value)), order;
    }

    /**
     GetSegment. `answers` are the answers of successive reads of the open file. The chunks sent join to what was read,
     none is empty or larger than the buffer, and a download that succeeds ends with the one EOF message.
     */
    method GetSegment(locator: Locator, answers: seq<ReadResult>) returns (sent: seq<Response>, err: Option<string>)
      requires locator in fs.files ==> ReadsFile(fs.files[locator], 0, answers)
      ensures locator !in fs.files ==> err.Some? && sent == []
      ensures locator in fs.files ==> SentWell(fs.files[locator], sent, err) && (err.None? <==> EndsWell(answers))
    {
      if locator !in fs.files {
        return [], Some("no such file");
      }
      sent, err := Transmit(fs.files[locator], answers);
    }

    /** The goroutines to start. */
    method Start(targets: seq<string>, h: Header, transport: string -> Option<string>, s3: Option<string>)
      returns (workers: seq<Worker>)
      ensures workers == Workers(targets, nodeID, h, transport, s3)
    {
      workers := [];
      for i := 0 to |targets|
        invariant |workers| == |NonSelf(targets[..i], nodeID)|
        invariant forall k :: 0 <= k < |workers| ==>
                    var name := NonSelf(targets[..i], nodeID)[k]; workers[k] == Worker(name, transport(name))
      {
        assert targets[..i + 1][..i] == targets[..i];
        if targets[i] == nodeID {
          continue;
        }
        workers := workers + [Worker(targets[i], transport(targets[i]))];
      }
      assert targets[..|targets|] == targets;
      if h.s3Bucket != "" && h.s3Key != "" {
        workers := workers + [Worker(S3Name(h), s3)];
      }
    }
  }

  /**
   The replica set of a segment: the nodes that a lookup of its ID names, or this node alone when the ring is empty.
   */
  lemma HoldersMean(service: Service, h: Header)
    requires service.ring.Valid()
    ensures exists lookup ::
              && NamesFirst(service.ring.ring.Contents(), service.ring.hash(h.segmentId), service.replicationFactor,
                            lookup)
              && service.Holders(h) == if lookup == [] then [service.nodeID] else lookup
  {
    var tokens, key := service.ring.ring.Contents(), service.ring.hash(h.segmentId);
    var start := SplitOf(tokens, key);
    if service.replicationFactor > 0 { LookupMeans(tokens, key, start, service.replicationFactor); }
    assert NamesFirst(tokens, key, service.replicationFactor, Take(Preference(tokens, key), service.replicationFactor));
  }

  lemma {:induction false} SplitOf(tokens: seq<Token>, h: Hash) returns (start: nat)
    requires RingOrder.Sorted(tokens)
    ensures Splits(tokens, h, start)
  {
    start := 0;
    while start < |tokens| && tokens[start].hash < h
      invariant start <= |tokens| && forall k :: 0 <= k < start ==> tokens[k].hash < h
    {
      start := start + 1;
    }
  }

  /**
   The acks, spelled out: success for this node; for every other key of the results its outcome with the error's text;
   how recording the segment went; and, if something failed, how many did.
   */
  lemma AcksMean(service: Service, results: Outcomes)
    ensures var failed := set k | k in results && results[k].Some?;
            var text := "replication failed for " + Itoa(|failed|) + " replicas";
            service.Acks(results) ==
            multiset{ReplicaAck(service.nodeID, true, "")} +
            multiset(set k | k in results && k != service.nodeID ::
                       ReplicaAck(k, results[k].None?, if results[k].Some? then results[k].value else "")) +
            (if service.metadata == null then multiset{}
             else if failed != {} then multiset{ReplicaAck("metadata", false, text)}
             else if service.metadata.err.Some?
             then multiset{ReplicaAck("metadata", false, service.metadata.err.value)}
             else multiset{ReplicaAck("metadata", true, "")}) +
            (if failed != {} then multiset{ReplicaAck("replication", false, text)} else multiset{})
  {
    FailedCount(results);
    OthersMean(service.nodeID, results);
  }

  lemma FailedCount(results: Outcomes)
    ensures var failed := set k | k in results && results[k].Some?;
            && (Failed(results) == map[] <==> failed == {})
            && |Failed(results)| == |failed|
  {
    assert Failed(results).Keys == set k | k in results && results[k].Some?;
    assert |Failed(results)| == |Failed(results).Keys|;
  }

  lemma OthersMean(self: string, results: Outcomes)
    ensures OtherAcks(self, results) ==
            set k | k in results && k != self ::
              ReplicaAck(k, results[k].None?, if results[k].Some? then results[k].value else "")
  {
  }

  lemma KeptIff(files: map<Locator, seq<Byte>>, locator: Locator, data: seq<Byte>)
    ensures files[locator := data] == files <==> locator in files && files[locator] == data
  {
    assert locator in files[locator := data] && files[locator := data][locator] == data;
  }

  /**
   Bytes survive a round trip: what any accepted upload carries is what a later download of the locator receives, in
   non-empty chunks, however the file reads are split, whether or not the replica set was accepted.
   */
  method RoundTrip(service: Service, stream: Stream, transport: string -> Option<string>, s3: Option<string>,
                   answers: seq<ReadResult>)
    returns (sent: seq<Response>, err: Option<string>)
    requires service.ring.Valid() && Opening(stream).Some?
    requires ReadsFile(Opening(stream).value.data, 0, answers)
    modifies service.fs, service.metadata
    ensures SentWell(Opening(stream).value.data, sent, err) && (err.None? <==> EndsWell(answers))
  {
    var response, order := service.UploadSegment(stream, transport, s3);
    sent, err := service.GetSegment(Opening(stream).value.locator, answers);
  }

  // ---------- A refused upload ----------

  method RingOf(node: string, hash: string -> Hash, codec: Codec) returns (ring: RingManager)
    requires node != ""
    ensures fresh(ring) && ring.Valid()
    ensures forall h :: Preference(ring.ring.Contents(), h) == [node]
  {
    var etcd := new Etcdsim.Client();
    ring := new RingManager(etcd, "", 1, hash, codec);
    var version := ring.UpsertNode(NodeDescriptor(node, "", 0, 0));
    assert ring.state.nodes.Keys == {node};
    forall h ensures Preference(ring.ring.Contents(), h) == [node] {
      SoleMember(hash, ring.vnodes, node, ring.ring.Contents(), h);
    }
  }

  method OutsideRing(nodeID: string, other: string, hash: string -> Hash, codec: Codec, sha: seq<Byte> -> string)
    returns (service: Service)
    requires other != "" && nodeID != other
    ensures fresh(service) && fresh(service.fs) && service.metadata == null && service.nodeID == nodeID
    ensures service.ring.Valid() && service.fs.files == map[] && forall h :: service.Holders(h) == [other]
  {
    var ring := RingOf(other, hash, codec);
    var fs := new FS();
    service := new Service(nodeID, ring, fs, null, 3, sha);
  }

  /** A ring whose one member is another node: every upload is refused, and every well-formed one leaves its payload. */
  method RefusedUploadStays(nodeID: string, other: string, stream: Stream, hash: string -> Hash, codec: Codec,
                            sha: seq<Byte> -> string, transport: string -> Option<string>, s3: Option<string>)
    returns (service: Service, r: Result<UploadResponse, string>)
    requires other != "" && nodeID != other
    ensures fresh(service) && fresh(service.fs) && r.Err?
    ensures service.fs.files ==
            match Opening(stream) case None => map[] case Some(open) => map[open.locator := open.data]
  {
    service := OutsideRing(nodeID, other, hash, codec, sha);
    assert Opening(stream).Some? ==> service.Holders(Opening(stream).value.header) == [other];
    ghost var order;
    r, order := service.UploadSegment(stream, transport, s3);
  }
}
