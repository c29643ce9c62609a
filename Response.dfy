/** The response buffer of auto-netaccess.c (struct ResponseData and
    WriteCallback), how libcurl feeds it, and what a request's caller sees
    afterwards: the transport verdict, the status code and the buffer. */
module Response {
  import opened Text

  /** MAX_RESPONSE_SIZE: 1 MiB. */
  const MAX_RESPONSE_SIZE: nat := 1024 * 1024

  /** All chunks, joined. */
  function Concat(chunks: seq<string>): string {
    if chunks == [] then [] else chunks[0] + Concat(chunks[1..])
  }

  /** How many leading chunks WriteCallback accepts when `held` bytes are
      already buffered: it refuses the first chunk that would take the total
      above MAX_RESPONSE_SIZE, and libcurl then stops delivering. */
  function Accepted(chunks: seq<string>, held: nat): (n: nat)
    ensures n <= |chunks|
  {
    if chunks == [] || held + |chunks[0]| > MAX_RESPONSE_SIZE then 0
    else 1 + Accepted(chunks[1..], held + |chunks[0]|)
  }

  lemma {:induction false} ConcatPrefix(chunks: seq<string>, n: nat)
    requires n < |chunks|
    ensures Concat(chunks[..n + 1]) == Concat(chunks[..n]) + chunks[n]
    decreases n
  {
    if n == 0 {
      assert chunks[..1][1..] == [];
    } else {
      assert chunks[..n + 1][1..] == chunks[1..][..n];
      assert chunks[..n][1..] == chunks[1..][..n - 1];
      ConcatPrefix(chunks[1..], n - 1);
    }
  }

  /** Every chunk is delivered exactly when the whole body fits the bound. */
  lemma {:induction false} AcceptedAll(chunks: seq<string>, held: nat)
    requires held <= MAX_RESPONSE_SIZE
    ensures Accepted(chunks, held) == |chunks| <==> held + |Concat(chunks)| <= MAX_RESPONSE_SIZE
    decreases |chunks|
  {
    if chunks != [] && held + |chunks[0]| <= MAX_RESPONSE_SIZE {
      AcceptedAll(chunks[1..], held + |chunks[0]|);
    }
  }

  /** What is buffered never exceeds the bound. */
  lemma {:induction false} AcceptedBounded(chunks: seq<string>, held: nat)
    requires held <= MAX_RESPONSE_SIZE
    ensures held + |Concat(chunks[..Accepted(chunks, held)])| <= MAX_RESPONSE_SIZE
    decreases |chunks|
  {
    var n := Accepted(chunks, held);
    if n > 0 {
      AcceptedBounded(chunks[1..], held + |chunks[0]|);
      assert chunks[..n][1..] == chunks[1..][..n - 1];
    }
  }

  /** The buffer a request writes into: `data` is NULL until the first
      chunk arrives, then holds `size` bytes and a terminating NUL. */
  class ResponseData {
    var data: array?<char>
    var size: nat

    ghost predicate Valid()
      reads this, data
    {
      size <= MAX_RESPONSE_SIZE &&
      (data == null ==> size == 0) &&
      (data != null ==> data.Length == size + 1 && data[size] == '\0')
    }

    /** The received bytes, or None for a NULL `data`. */
    function Body(): Option<string>
      reads this, data
      requires Valid()
    {
      if data == null then None else Some(data[..size])
    }

    /** `struct ResponseData response = {0};` */
    constructor ()
      ensures Valid() && data == null && size == 0
    {
      data := null;
      size := 0;
    }

    /** WriteCallback: append a chunk of `itemSize * nmemb` bytes, unless the
        total would exceed MAX_RESPONSE_SIZE, in which case return 0 and keep
        the buffer as it was. */
    method WriteCallback(contents: string, itemSize: nat, nmemb: nat) returns (written: nat)
      requires Valid() && |contents| == itemSize * nmemb
      modifies this
      ensures Valid()
      ensures old(size) + |contents| > MAX_RESPONSE_SIZE ==>
                written == 0 && data == old(data) && size == old(size) && Body() == old(Body())
      ensures old(size) + |contents| <= MAX_RESPONSE_SIZE ==>
                written == |contents| && size == old(size) + |contents| && fresh(data) &&
                Body() == Some((if old(data) == null then [] else old(data[..size])) + contents)
    {
      var totalSize := itemSize * nmemb;
      var newSize := size + totalSize;
      if newSize > MAX_RESPONSE_SIZE {
        return 0;
      }
      // realloc to newSize + 1 bytes, keeping what was there
      var grown := new char[newSize + 1];
      if data != null {
        forall k | 0 <= k < size {
          grown[k] := data[k];
        }
      }
      // memcpy the chunk behind it, then terminate
      forall k | 0 <= k < totalSize {
        grown[size + k] := contents[k];
      }
      grown[newSize] := '\0';
      ghost var before := if data == null then [] else data[..size];
      assert before == if old(data) == null then [] else old(data[..size]);
      assert grown[..newSize] == before + contents;
      data := grown;
      size := newSize;
      written := totalSize;
    }

    /** free(response.data); response.data = NULL; response.size = 0; */
    method Free()
      modifies this
      ensures Valid() && data == null && size == 0
    {
      data := null;
      size := 0;
    }

    /** libcurl's side of a transfer into an empty buffer: it hands the body
        over chunk by chunk (itemSize 1) and stops at the first chunk the
        callback does not take whole. Returns how many chunks were taken. */
    method Receive(chunks: seq<string>) returns (taken: nat)
      requires Valid() && data == null
      modifies this
      ensures Valid()
      ensures taken == Accepted(chunks, 0)
      ensures Body() == if taken == 0 then None else Some(Concat(chunks[..taken]))
    {
      taken := 0;
      while taken < |chunks|
        invariant taken <= |chunks| && Valid()
        invariant Accepted(chunks, 0) == taken + Accepted(chunks[taken..], size)
        invariant Body() == if taken == 0 then None else Some(Concat(chunks[..taken]))
        invariant size == |Concat(chunks[..taken])|
      {
        var chunk := chunks[taken];
        var written := WriteCallback(chunk, 1, |chunk|);
        if written != |chunk| {
          return;
        }
        assert chunks[taken..][1..] == chunks[taken + 1..];
        ConcatPrefix(chunks, taken);
        taken := taken + 1;
      }
    }
  }

  /** One HTTP exchange as libcurl performs it: whether the transport
      completed, the status code, and the body chunks it delivers. */
  datatype Transfer = Transfer(transportOk: bool, status: int, chunks: seq<string>)

  /** What the C code sees after curl_easy_perform: CURLE_OK or not,
      CURLINFO_RESPONSE_CODE, and `response.data` (None for NULL). */
  datatype Reply = Reply(curlOk: bool, status: int, body: Option<string>)

  /** The reply a transfer produces through WriteCallback. A refused chunk
      makes libcurl report a write error, so the request fails. */
  function Observe(t: Transfer): (r: Reply)
    ensures r.status == t.status
    ensures r.body.Some? ==> |r.body.value| <= MAX_RESPONSE_SIZE
    ensures r.curlOk <==> t.transportOk && |Concat(t.chunks)| <= MAX_RESPONSE_SIZE
    ensures r.curlOk ==> r.body == if t.chunks == [] then None else Some(Concat(t.chunks))
  {
    var n := Accepted(t.chunks, 0);
    AcceptedAll(t.chunks, 0);
    AcceptedBounded(t.chunks, 0);
    assert t.chunks[..|t.chunks|] == t.chunks;
    Reply(t.transportOk && n == |t.chunks|, t.status,
          if n == 0 then None else Some(Concat(t.chunks[..n])))
  }

  /** curl_easy_perform into a reset buffer, then CURLINFO_RESPONSE_CODE. */
  method Perform(response: ResponseData, t: Transfer) returns (reply: Reply)
    requires response.Valid() && response.data == null
    modifies response
    ensures response.Valid() && reply == Observe(t)
    ensures reply.body == response.Body()
  {
    var taken := response.Receive(t.chunks);
    reply := Reply(t.transportOk && taken == |t.chunks|, t.status, response.Body());
  }
}
