/** The writer and the reader put together. */
module RoundTrips {
  import opened Wrappers
  import opened Bytes
  import opened Strings
  import opened Tables
  import opened Values
  import opened Encoding
  import opened ValueProofs
  import opened Serialize
  import opened Serializer
  import opened Deserializer

  /** A value is written, other values are written after it, and then the first one is read with
      the tables as they are in the end: it comes back, unless writing threw. */
  method WriteAndRead(env: World, g: Graph, w: Writer, v: Value, more: seq<Value>) returns (r: Result<Value>)
    requires WriterOk(env.foreign, w) && Enumerates(env.iter)
    ensures r.Ok? <==> WriteRefs(env, w, [v] + more).Written?
    ensures r.Ok? ==> r.value == v
  {
    var writer := new SerializationWriter(env, g, w);
    assert ([v] + more)[1..] == more;
    var ok := writer.WriteReference(v);
    if !ok {
      return Err;
    }
    ghost var first := WriteRef(env, w, v);
    WriteRefKept(env, w, v);
    ok := writer.WriteReferences(more);
    if !ok {
      return Err;
    }
    WriteRefsKept(env, first.w, more);
    var reader := new SerializationReader(env, writer.w.tabs, writer.out, 0);
    ghost var rest := WriteRefs(env, first.w, more).bytes;
    assert reader.data == first.bytes + rest;
    AtSplit(reader.data, 0, first.bytes, rest);
    RefRoundTrip(env, w, v, writer.w, reader.data, 0);
    r := reader.ReadReference();
  }
}
