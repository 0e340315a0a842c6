/** The sending side of the large transfer: a resumable write loop over a socket. */
module BulkSender {

  const TOTAL_TX_BYTES: nat := 2000000
  const WRITE_SIZE: nat := 1040

  /** Byte k of the stream to be sent. */
  function StreamByte(k: nat): char {
    ('a' as int + k % 26) as char
  }

  ghost function Stream(n: nat): seq<char> {
    seq(n, k requires 0 <= k => StreamByte(k))
  }

  /** The stream is the alphabet over and over. */
  lemma AlphabetStream(k: nat)
    ensures Stream(26) == "abcdefghijklmnopqrstuvwxyz" && StreamByte(26 + k) == StreamByte(k)
  {
    assert (26 + k) % 26 == k % 26;
  }

  function Min(a: nat, b: nat): nat {
    if a < b then a else b
  }

  /** One request to send: bytes accepted before, buffer space, and the number of bytes offered. */
  datatype Request = Request(sent: nat, space: nat, offered: nat)

  /** Offered is what fits into the buffer space, up to the end of the data and of the transfer. */
  ghost predicate OfferOk(r: Request) {
    r.sent < TOTAL_TX_BYTES && r.space > 0 &&
    r.offered == Min(Min(WRITE_SIZE - r.sent % WRITE_SIZE, TOTAL_TX_BYTES - r.sent), r.space)
  }

  /** What the sender sees of a socket; its buffer space changes as it likes with every send. */
  class Socket {
    var txAvailable: nat
    /** How often in a row a send may still accept nothing. */
    var patience: nat
    ghost var accepted: seq<char>
    ghost var requests: seq<Request>
    ghost var refusals: nat
    ghost var closes: nat

    constructor (txAvailable: nat, patience: nat)
      ensures this.txAvailable == txAvailable && this.patience == patience
      ensures accepted == [] && requests == [] && refusals == 0 && closes == 0
    {
      this.txAvailable, this.patience := txAvailable, patience;
      accepted, requests, refusals, closes := [], [], 0, 0;
    }

    /** Refuses with a negative value, or accepts any number of the bytes, but not none for ever. */
    method Send(bytes: seq<char>) returns (amount: int)
      requires bytes != []
      modifies this`txAvailable, this`patience, this`accepted, this`requests, this`refusals
      ensures amount <= |bytes|
      ensures accepted == old(accepted) + if amount < 0 then [] else bytes[..amount]
      ensures requests == old(requests) + [Request(|old(accepted)|, old(txAvailable), |bytes|)]
      ensures refusals == old(refusals) + if amount < 0 then 1 else 0
      ensures amount == 0 ==> patience < old(patience)
    {
      requests := requests + [Request(|accepted|, txAvailable, |bytes|)];
      amount := *;
      if amount > |bytes| || (amount == 0 && patience == 0) {
        amount := |bytes|;
      }
      if amount == 0 {
        patience := patience - 1;
      } else {
        patience := *;
      }
      if amount >= 0 {
        accepted := accepted + bytes[..amount];
      } else {
        refusals := refusals + 1;
      }
      txAvailable := *;
    }

    method Close()
      modifies this`closes
      ensures closes == old(closes) + 1
    {
      closes := closes + 1;
    }
  }

  /** The buffer length is a multiple of the alphabet's, so offsets keep their letter. */
  lemma SameLetter(sent: nat, j: nat)
    ensures StreamByte(sent % WRITE_SIZE + j) == StreamByte(sent + j)
  {
    var q, r := sent / 1040, sent % 1040;
    assert sent == 26 * (40 * q) + r;
    assert (26 * (40 * q) + (r + j)) % 26 == (r + j) % 26;
  }

  lemma WindowOfStream(data: seq<char>, sent: nat, n: nat)
    requires |data| == WRITE_SIZE && forall i :: 0 <= i < WRITE_SIZE ==> data[i] == StreamByte(i)
    requires sent % WRITE_SIZE + n <= WRITE_SIZE
    ensures Stream(sent) + data[sent % WRITE_SIZE..sent % WRITE_SIZE + n] == Stream(sent + n)
  {
    hide StreamByte;
    var offset := sent % WRITE_SIZE;
    var left, right := Stream(sent) + data[offset..offset + n], Stream(sent + n);
    forall k | 0 <= k < sent + n
      ensures left[k] == right[k]
    {
      if k >= sent {
        SameLetter(sent, k - sent);
        assert left[k] == data[offset + (k - sent)];
      }
    }
  }

  class Sender {
    var currentTxBytes: nat
    const data: array<char>

    ghost predicate Valid(s: Socket)
      reads this, data, s
    {
      && currentTxBytes <= TOTAL_TX_BYTES
      && data.Length == WRITE_SIZE
      && (forall i :: 0 <= i < WRITE_SIZE ==> data[i] == StreamByte(i))
      && s.accepted == Stream(currentTxBytes)
      && (forall i :: 0 <= i < |s.requests| ==> OfferOk(s.requests[i]))
      && (s.closes > 0 ==> currentTxBytes == TOTAL_TX_BYTES)
    }

    constructor ()
      ensures fresh(data)
      ensures forall s: Socket :: s.accepted == [] && s.requests == [] && s.closes == 0 ==> Valid(s)
    {
      currentTxBytes := 0;
      data := new char[WRITE_SIZE];
      new;
      for i := 0 to WRITE_SIZE
        invariant data.Length == WRITE_SIZE && currentTxBytes == 0 && fresh(data)
        invariant forall j :: 0 <= j < i ==> data[j] == StreamByte(j)
      {
        data[i] := (97 + i % 26) as char;
      }
    }

    /**
     * May be called any number of times: the accepted bytes are always the stream's first
     * currentTxBytes bytes. A call ends only at the total, in front of a full buffer or behind a
     * refusal, and the socket is closed in exactly those calls that end at the total.
     */
    method WriteUntilBufferFull(s: Socket)
      requires Valid(s)
      modifies this`currentTxBytes, s
      ensures Valid(s)
      ensures currentTxBytes >= old(currentTxBytes)
      ensures currentTxBytes == TOTAL_TX_BYTES || s.txAvailable == 0 || s.refusals > old(s.refusals)
      ensures s.refusals <= old(s.refusals) + 1
      ensures s.closes == old(s.closes) + if currentTxBytes == TOTAL_TX_BYTES then 1 else 0
    {
      hide StreamByte;
      while currentTxBytes < TOTAL_TX_BYTES && s.txAvailable > 0
        invariant Valid(s) && currentTxBytes >= old(currentTxBytes)
        invariant s.closes == old(s.closes) && s.refusals == old(s.refusals)
        decreases TOTAL_TX_BYTES - currentTxBytes, s.patience
      {
        var left := TOTAL_TX_BYTES - currentTxBytes;
        var dataOffset := currentTxBytes % WRITE_SIZE;
        var toWrite := WRITE_SIZE - dataOffset;
        toWrite := Min(toWrite, left);
        toWrite := Min(toWrite, s.txAvailable);
        var bytes := data[dataOffset..dataOffset + toWrite];
        var amountSent := s.Send(bytes);
        if amountSent < 0 {
          return;
        }
        WindowOfStream(data[..], currentTxBytes, amountSent);
        assert bytes[..amountSent] == data[..][dataOffset..dataOffset + amountSent];
        currentTxBytes := currentTxBytes + amountSent;
      }
      if currentTxBytes >= TOTAL_TX_BYTES {
        s.Close();
      }
    }
  }
}
