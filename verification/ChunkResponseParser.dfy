/** The parser that a socket provider keeps between frames. */
module ChunkResponseParser {
  import opened Wrappers
  import opened Framing
  import opened ChunkStreams

  class ChunkResponseParser<J> {
    const parse: string -> Parsed<J>
    const autoReconnect: bool
    var lastChunk: Option<string>
    var lastChunkTimeout: bool    // the timer that gives up on an unfinished message
    var cleared: nat              // how often the queues were cleared

    ghost function View(out: seq<J>): State<J>
      reads this
    {
      State(if lastChunk.Some? then lastChunk.value else "", lastChunkTimeout, cleared, out)
    }

    constructor (parse: string -> Parsed<J>, autoReconnect: bool)
      ensures View([]) == State("", false, 0, [])
    {
      this.parse, this.autoReconnect := parse, autoReconnect;
      lastChunk, lastChunkTimeout, cleared := None, false, 0;
    }

    /** One frame: every piece of it is tried together with what was carried over. */
    method ParseResponse(data: string) returns (returnValues: seq<J>)
      modifies this
      ensures View(returnValues) == TakeAll(parse, old(View([])), Dechunk(data))
    {
      hide Dechunk;
      returnValues := [];
      var dechunkedData := Dechunk(data);
      var i := 0;
      while i < |dechunkedData|
        invariant i <= |dechunkedData|
        invariant TakeAll(parse, View(returnValues), dechunkedData[i..]) == TakeAll(parse, old(View([])), dechunkedData)
      {
        assert dechunkedData[i..][0] == dechunkedData[i] && dechunkedData[i..][1..] == dechunkedData[i + 1..];
        returnValues := TryPiece(dechunkedData[i], returnValues);
        i := i + 1;
      }
    }

    method TryPiece(piece: string, returnValues: seq<J>) returns (longer: seq<J>)
      modifies this
      ensures View(longer) == Take(parse, old(View(returnValues)), piece)
    {
      longer := returnValues;
      var chunkData := piece;
      if lastChunk.Some? && lastChunk.value != "" {
        chunkData := lastChunk.value + chunkData;
      }
      assert chunkData == old(View(returnValues)).last + piece;
      if |chunkData| > MAX_CHUNK {
        lastChunk := None;
        cleared := cleared + 1;
        return;
      }
      match parse(chunkData) {
        case Fails =>
          lastChunk, lastChunkTimeout := Some(chunkData), true;
        case Falsy =>
          lastChunk, lastChunkTimeout := None, false;
        case Got(value) =>
          lastChunk, lastChunkTimeout := None, false;
          longer := returnValues + [value];
      }
    }

    /** The timer: without automatic reconnection the queues are cleared; the carried text stays. */
    method ChunkTimeout(ghost out: seq<J>)
      requires lastChunkTimeout
      modifies this`lastChunkTimeout, this`cleared
      ensures View(out)
        == old(View(out)).(timer := false, cleared := if autoReconnect then old(cleared) else old(cleared) + 1)
    {
      lastChunkTimeout := false;
      if !autoReconnect {
        cleared := cleared + 1;
      }
    }
  }
}
