/** The two pieces of outside state a download touches: the output file and
    the HTTP client. */
module Io {
  import opened Types

  /** The output file `<name>.ts`: whether it exists, and its bytes. */
  class OutputFile {
    var present: bool
    var data: seq<byte>

    constructor (present: bool, data: seq<byte>)
      requires !present ==> data == []
      ensures this.present == present && this.data == data
    {
      this.present := present;
      this.data := data;
    }

    /** `os.Create` (`setupOutput`): create the file, or empty it if it
        exists. */
    method Create()
      modifies this
      ensures present && data == []
    {
      present := true;
      data := [];
    }

    /** A write to the file opened for appending: the bytes go at its end. */
    method Write(bs: seq<byte>)
      requires present
      modifies this
      ensures present && data == old(data) + bs
    {
      data := data + bs;
    }
  }

  /** The HTTP client. Each GET is answered by the fixed function `respond`
      (the server), and every request is logged, in order, in `requests`. */
  class Network {
    const respond: Url -> Fetch
    var requests: seq<Url>

    constructor (respond: Url -> Fetch)
      ensures this.respond == respond && requests == []
    {
      this.respond := respond;
      requests := [];
    }

    /** `http.Get(u)` followed by reading the whole body. */
    method Get(u: Url) returns (f: Fetch)
      modifies this
      ensures f == respond(u)
      ensures requests == old(requests) + [u]
    {
      f := respond(u);
      requests := requests + [u];
    }
  }
}
