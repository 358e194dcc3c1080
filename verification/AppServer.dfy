/** The application server's half of a downlink: send_downlink of app_server/main.c and the XmitDataAns branch of
    app_server/web.c for the message the answer belongs to. */
module AppServer {
  import opened Rfc4493
  import opened PayloadCipher
  import opened Basics
  import opened DownlinkCounters
  import opened DownlinkDelivery

  class AppSession {
    const key: Key
    const address: bv32
    var afCntDown: uint32
    var nextReqTid: uint32

    constructor (key: Key, address: bv32, nextReqTid: uint32)
      ensures this.key == key && this.address == address && afCntDown == 0 && this.nextReqTid == nextReqTid
    {
      this.key, this.address, afCntDown, this.nextReqTid := key, address, 0, nextReqTid;
    }

    /** The application server's part of a state of both servers. */
    ghost predicate Plays(s: Sys)
      reads this
    {
      s.key == key && s.ns.address == address && s.af == afCntDown && s.tid == nextReqTid
    }

    /** send_downlink: the payload goes out encrypted under the stored counter, which is reported with it. */
    method SendDownlink(m: Msg, ghost s: Sys) returns (q: Request)
      requires Plays(s)
      modifies `nextReqTid
      ensures q == RequestFor(key, address, old(nextReqTid), afCntDown, m)
      ensures Plays(Send(s, m)) && Send(s, m).ns == RequestStep(s.ns, q)
    {
      hide Crypt, Accepts, Needed;
      var n := |m.plain|;
      var payload, txFRMPayload := new bv8[n], new bv8[n];
      forall j | 0 <= j < n {
        payload[j] := m.plain[j];
      }
      assert payload[0..n] == m.plain;
      LoRaEncrypt(1, Context(key, address, false, BitsOf(afCntDown as nat)), payload, 0, n as uint16, txFRMPayload, 0);
      q := Request(nextReqTid, afCntDown, m.port, m.confirmed, txFRMPayload[..]);
      nextReqTid := Succ(nextReqTid);
    }

    /** XmitDataAns: the mail is taken exactly as TakeMail says, and a message to be sent again is the request the network
        server takes in. */
    method TakeXmitDataAns(answer: Mail, ghost s: Sys, ghost k: nat) returns (again: Option<Request>)
      requires Plays(s) && k < |s.mail| && s.mail[k] == answer
      modifies this
      ensures afCntDown == match answer { case Delivered => Succ(old(afCntDown)) case Failed => old(afCntDown) case Rejected(c, _) => c }
      ensures Plays(TakeMail(s, k))
      ensures TakeMail(s, k).ns == if again.Some? then RequestStep(s.ns, again.value) else s.ns
      ensures again == if answer.Rejected? then Some(RequestFor(key, address, old(nextReqTid), answer.counter, answer.msg)) else None
    {
      hide Crypt, Accepts, Needed, RequestFor;
      again := None;
      if answer.Delivered? {
        afCntDown := Succ(afCntDown);
      } else if answer.Rejected? {
        afCntDown := answer.counter;
        var q := SendDownlink(answer.msg, s.(mail := s.mail[..k] + s.mail[k + 1..], af := answer.counter));
        again := Some(q);
      }
    }
  }
}
