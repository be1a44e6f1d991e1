/**
 * `BlobExporter`: collects serialized data payloads under their resource paths and,
 * on `close`, writes them all to a sink as one serialized blob.
 *
 * Serialization (postcard) is a function parameter that may fail. The sink is
 * fixed when the exporter is made. It is modelled by the bytes it has received so
 * far and by `sink`, which says how many leading bytes of a buffer one `write`
 * call takes, or which error it reports (an erroring `write` takes nothing).
 */
module BlobExport {
  import opened Wrappers
  import opened Ule
  import opened LiteMap

  /** `DataError`, reduced to its message. */
  datatype DataError = DataError(reason: string)

  /** `BlobSchemaV1`: the resources, in key order. */
  datatype BlobSchemaV1 = BlobSchemaV1(resources: seq<(string, Bytes)>)

  /** `BlobSchema` */
  datatype BlobSchema = V001(v1: BlobSchemaV1)

  /** The message `write_all` reports when the sink stops taking bytes. */
  const WriteZeroMessage: string := "failed to write whole buffer"

  /** How many bytes one `write` call delivers: what the sink accepts, at most the whole buffer. */
  function Delivered(buf: Bytes, accepted: nat): (n: nat)
    ensures n <= |buf|
    ensures n == |buf| <==> accepted >= |buf|
  {
    if accepted < |buf| then accepted else |buf|
  }

  /**
   * What `write_all` does with `buf`: its outcome and how many leading bytes the
   * sink received. It succeeds only after delivering the whole buffer.
   */
  function WriteAllOutcome(buf: Bytes, accept: Bytes -> Result<nat, string>): (r: (Result<(), string>, nat))
    ensures r.1 <= |buf|
    ensures r.0.Ok? ==> r.1 == |buf|
    decreases |buf|
  {
    if buf == [] then (Ok(()), 0)
    else
      match accept(buf)
      case Err(e) => (Err(e), 0)
      case Ok(a) =>
        var n := Delivered(buf, a);
        if n == 0 then (Err(WriteZeroMessage), 0)
        else
          var rest := WriteAllOutcome(buf[n..], accept);
          (rest.0, n + rest.1)
  }

  class BlobExporter {
    /** The payloads put so far, by resource path (`LiteMap<String, Vec<u8>>`). */
    var resources: seq<(string, Bytes)>
    /** Everything the sink has received from this exporter. */
    var written: Bytes
    /** The sink's `write`: how many leading bytes of a buffer it takes, or its error. */
    const sink: Bytes -> Result<nat, string>

    /** The resource table is a well-formed `LiteMap`. */
    ghost predicate Valid()
      reads this
    {
      StrictlySorted(resources)
    }

    /** The payload stored under each path. */
    ghost function Contents(): map<string, Bytes>
      reads this
    {
      ToMap(resources)
    }

    /** `new_with_sink`: an empty table and the given sink, which has received nothing yet. */
    constructor NewWithSink(accept: Bytes -> Result<nat, string>)
      ensures Valid()
      ensures resources == [] && written == [] && sink == accept
      ensures Contents() == map[]
    {
      resources := [];
      written := [];
      sink := accept;
    }

    /**
     * `put_payload`: `serialized` is the outcome of serializing the payload. A
     * serialization error is returned and the table is left alone; otherwise the
     * bytes are stored under `path`, replacing whatever was there.
     */
    method PutPayload(path: string, serialized: Result<Bytes, DataError>) returns (r: Result<(), DataError>)
      requires Valid()
      modifies this`resources
      ensures Valid()
      ensures serialized.Err? ==> r == Err(serialized.error) && resources == old(resources)
      ensures serialized.Ok? ==> r == Ok(()) && Contents() == old(Contents())[path := serialized.value]
    {
      if serialized.Err? {
        return Err(serialized.error);
      }
      resources := Insert(resources, path, serialized.value);
      r := Ok(());
    }

    /**
     * Rebuilds the table as the borrowed map the blob schema holds, appending the
     * pairs in the table's own order. Every append succeeds, so the "Same order"
     * expectation never panics, and the copy is the table itself.
     */
    method SchemaOfResources() returns (schema: BlobSchemaV1)
      requires Valid()
      ensures schema.resources == resources
    {
      var copy: seq<(string, Bytes)> := [];
      var i := 0;
      while i < |resources|
        invariant 0 <= i <= |resources|
        invariant copy == resources[..i]
        invariant StrictlySorted(copy)
      {
        var (k, v) := resources[i];
        var (appended, rejected) := TryAppend(copy, k, v);
        assert i > 0 ==> copy[i - 1] == resources[i - 1];
        assert rejected.None?;
        copy := appended;
        i := i + 1;
      }
      assert resources[..i] == resources;
      schema := BlobSchemaV1(copy);
    }

    /**
     * `close`, as written: serializes the schema and hands it to the sink with a
     * single `write` call whose byte count is ignored. On success the table is
     * cleared, even when the sink took only part of the blob.
     */
    method Close(serialize: BlobSchema -> Result<Bytes, DataError>)
      returns (r: Result<(), DataError>)
      requires Valid()
      modifies this
      ensures Valid()
      ensures var blob := serialize(V001(BlobSchemaV1(old(resources))));
        && (blob.Err? ==> r == Err(blob.error) && resources == old(resources) && written == old(written))
        && (blob.Ok? && sink(blob.value).Err? ==>
              r == Err(DataError(sink(blob.value).error)) && resources == old(resources) && written == old(written))
        && (blob.Ok? && sink(blob.value).Ok? ==>
              r == Ok(()) && resources == []
              && written == old(written) + blob.value[..Delivered(blob.value, sink(blob.value).value)])
    {
      var schema := SchemaOfResources();
      var blob := serialize(V001(schema));
      if blob.Err? {
        return Err(blob.error);
      }
      var w := sink(blob.value);
      if w.Err? {
        return Err(DataError(w.error));
      }
      written := written + blob.value[..Delivered(blob.value, w.value)];
      resources := [];
      r := Ok(());
    }

    /**
     * `Write::write_all`: calls `write` until the whole buffer is delivered, failing
     * when the sink reports an error or stops taking bytes. It does exactly what
     * `WriteAllOutcome` describes.
     */
    method WriteAll(buf: Bytes) returns (r: Result<(), string>)
      modifies this`written
      ensures r == WriteAllOutcome(buf, sink).0
      ensures written == old(written) + buf[..WriteAllOutcome(buf, sink).1]
    {
      var off := 0;
      while off < |buf|
        invariant 0 <= off <= |buf|
        invariant written == old(written) + buf[..off]
        invariant WriteAllOutcome(buf, sink)
               == (WriteAllOutcome(buf[off..], sink).0, off + WriteAllOutcome(buf[off..], sink).1)
        decreases |buf| - off
      {
        var w := sink(buf[off..]);
        if w.Err? {
          return Err(w.error);
        }
        var n := Delivered(buf[off..], w.value);
        if n == 0 {
          return Err(WriteZeroMessage);
        }
        assert buf[off..][n..] == buf[off + n..];
        assert buf[..off + n] == buf[..off] + buf[off..][..n];
        written := written + buf[off..][..n];
        off := off + n;
      }
      assert buf[..off] == buf;
      r := Ok(());
    }

    /**
     * `close` as evidently intended: the blob goes to the sink with `write_all`,
     * so a successful close means the whole blob was delivered, and the table is
     * kept when it was not.
     */
    method CloseWritingAll(serialize: BlobSchema -> Result<Bytes, DataError>)
      returns (r: Result<(), DataError>)
      requires Valid()
      modifies this
      ensures Valid()
      ensures var blob := serialize(V001(BlobSchemaV1(old(resources))));
        && (blob.Err? ==> r == Err(blob.error) && resources == old(resources) && written == old(written))
        && (blob.Ok? ==>
              var outcome := WriteAllOutcome(blob.value, sink);
              && written == old(written) + blob.value[..outcome.1]
              && (outcome.0.Ok? ==> r == Ok(()) && resources == [] && written == old(written) + blob.value)
              && (outcome.0.Err? ==> r == Err(DataError(outcome.0.error)) && resources == old(resources)))
    {
      var schema := SchemaOfResources();
      var blob := serialize(V001(schema));
      if blob.Err? {
        return Err(blob.error);
      }
      var w := WriteAll(blob.value);
      if w.Err? {
        return Err(DataError(w.error));
      }
      resources := [];
      r := Ok(());
    }

    /** `Drop::drop`: dropping an exporter that still holds payloads panics. */
    method Drop() returns (panics: bool)
      requires Valid()
      ensures panics <==> Contents() != map[]
    {
      EmptyIffNoPairs(resources);
      panics := resources != [];
    }
  }

  /** The blob the scenarios below serialize to. */
  const ScenarioBlob: Bytes := [0x01]

  /**
   * A sink that takes nothing in one `write` call makes the as-written `close`
   * report success for a non-empty blob, clear the table, and deliver no byte.
   */
  method ShortWriteLosesData() returns (r: Result<(), DataError>, delivered: Bytes, emptied: bool)
    ensures r.Ok? && emptied
    ensures delivered == [] && |delivered| < |ScenarioBlob|
  {
    var e := new BlobExporter.NewWithSink(b => Ok(0));
    var _ := e.PutPayload("und/decimal/symbols@1", Ok([1, 2, 3]));
    r := e.Close(s => Ok(ScenarioBlob));
    delivered := e.written;
    var panics := e.Drop();
    emptied := !panics;
  }

  /** With the same sink, the corrected `close` reports the failure and keeps the payload. */
  method ShortWriteReportedWhenWritingAll() returns (r: Result<(), DataError>, kept: bool)
    ensures r == Err(DataError(WriteZeroMessage)) && kept
  {
    var e := new BlobExporter.NewWithSink(b => Ok(0));
    var _ := e.PutPayload("und/decimal/symbols@1", Ok([1, 2, 3]));
    r := e.CloseWritingAll(s => Ok(ScenarioBlob));
    assert "und/decimal/symbols@1" in e.Contents();
    var panics := e.Drop();
    kept := panics;
  }
}
