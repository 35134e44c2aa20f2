/** The request and reply records exchanged with a client, and their constructors. */
module Messages {

  /** Request code of an exchange request. */
  const PawnCode: string := "PAWN"
  /** Reply code of a rejected offer. */
  const RejectCode: string := "REJECT"
  /** Reply code of an accepted offer. */
  const AcceptCode: string := "ACCEPT"
  /** Request code reserved for unsupported requests. */
  const UnsupportedCode: string := "UNSUPPORTED"

  /** An offer: the value given (`offer`) and the least value wanted back (`demand`). */
  datatype Offer = Offer(code: string, offer: int, demand: int)

  /** A reply; `value` is the unit handed back and is zero on a rejection. */
  datatype Answer = Answer(code: string, value: int)

  predicate IsAccepted(a: Answer) {
    a.code == AcceptCode
  }

  predicate IsRejected(a: Answer) {
    a.code == RejectCode
  }

  /** An exchange request carrying the given offer and demand. */
  function CreateOffer(offer: int, demand: int): (r: Offer)
    ensures r.code == PawnCode
    ensures r.offer == offer && r.demand == demand
  {
    Offer(PawnCode, offer, demand)
  }

  /** An acceptance handing `value` back to the client. */
  function CreateAcceptedAnswer(value: int): (r: Answer)
    ensures IsAccepted(r) && !IsRejected(r)
    ensures r.value == value
  {
    Answer(AcceptCode, value)
  }

  /** A rejection; its value is Go's zero value. */
  function CreateRejectAnswer(): (r: Answer)
    ensures IsRejected(r) && !IsAccepted(r)
    ensures r.value == 0
  {
    Answer(RejectCode, 0)
  }

  /** The four codes are pairwise distinct, so no answer is both accepted and rejected. */
  lemma CodesDistinct()
    ensures PawnCode != RejectCode && PawnCode != AcceptCode && PawnCode != UnsupportedCode
    ensures RejectCode != AcceptCode && RejectCode != UnsupportedCode
    ensures AcceptCode != UnsupportedCode
    ensures forall a: Answer :: !(IsAccepted(a) && IsRejected(a))
  {
  }

  /** The two answer constructors are told apart by their code alone, and each is
      determined by it: an accepted answer is exactly `CreateAcceptedAnswer` of its value. */
  lemma AnswerConstructorsRecognised(a: Answer)
    ensures IsAccepted(a) <==> a == CreateAcceptedAnswer(a.value)
    ensures IsRejected(a) && a.value == 0 <==> a == CreateRejectAnswer()
  {
  }
}
