/** The verdict AppStore reaches about one SecCheck review. */
module SecCheck {
  import opened Wrappers
  import opened Text
  import opened Uuids
  import opened SecurityBinding

  datatype RemoteStatus =
    | StatusDraft | ChangeRequested | Submitted | Resubmitted | Reviewing
    | ApprovalPending | StatusApproved | StatusRejected | StatusCancelled | Closed
    | UnknownStatus(text: string)

  datatype FinalResult = NoResult | ResultApproved | Conditional | ResultRejected | UnknownResult(text: string)

  /** SecCheck's counts of what is still open; a count may be absent from its answer. */
  datatype Blockers = Blockers(unreviewed: Option<int>, unverified: Option<int>, stale: Option<int>)

  /** Times are nanoseconds; 0 is Go's zero time. */
  datatype Review = Review(
    id: string, number: string, serviceName: string, description: string,
    status: RemoteStatus, finalResult: FinalResult, approvedAt: Option<int>, blockers: Blockers)

  datatype Reason = InvalidResponse | BindingMismatch | ServiceMismatch | NotApproved | Incomplete

  datatype Verdict = Approves | Refuses(reason: Reason)

  const FIVE_MINUTES := 300_000_000_000

  predicate ValidStatus(status: RemoteStatus) { !status.UnknownStatus? }

  predicate ValidResult(result: FinalResult) { !result.UnknownResult? }

  predicate IsReviewHex(c: char) { '0' <= c <= '9' || 'a' <= c <= 'f' || 'A' <= c <= 'F' }

  predicate ValidReviewId(id: string) {
    && |id| == 36
    && forall i :: 0 <= i < 36 ==> if i in {8, 13, 18, 23} then id[i] == '-' else IsReviewHex(id[i])
  }

  predicate BlockersReported(b: Blockers) {
    b.unreviewed.Some? && b.unverified.Some? && b.stale.Some?
  }

  predicate NothingOpen(b: Blockers) {
    b == Blockers(Some(0), Some(0), Some(0))
  }

  /** What the client hands over: a well-formed answer for the identifier it asked about. */
  predicate Fetched(review: Review, reviewId: string) {
    && ValidReviewId(reviewId) && review.id == reviewId
    && Trim(review.number) != "" && Trim(review.serviceName) != ""
    && ValidStatus(review.status) && ValidResult(review.finalResult) && BlockersReported(review.blockers)
  }

  function Verify(review: Option<Review>, bindingText: string, serviceName: string, now: int): Verdict {
    if review.None? then Refuses(InvalidResponse)
    else
      var r := review.value;
      if !ValidReviewId(r.id) || !ValidStatus(r.status) || !ValidResult(r.finalResult) then Refuses(InvalidResponse)
      else if !BindingMatches(r.description, bindingText) then Refuses(BindingMismatch)
      else if serviceName == "" || r.serviceName != serviceName then Refuses(ServiceMismatch)
      else if !BlockersReported(r.blockers) then Refuses(InvalidResponse)
      else if r.status != StatusApproved || r.finalResult != ResultApproved then Refuses(NotApproved)
      else if r.approvedAt.None? || r.approvedAt.value == 0 || r.approvedAt.value > now + FIVE_MINUTES then
        Refuses(InvalidResponse)
      else if !NothingOpen(r.blockers) then Refuses(Incomplete)
      else Approves
  }

  /** The verdicts after which the answer is stored: the approval, and two kinds of "not yet". */
  predicate Recordable(verdict: Verdict) {
    verdict.Approves? || verdict.reason == NotApproved || verdict.reason == Incomplete
  }

  predicate SaysApproved(status: RemoteStatus, result: FinalResult, approvedAt: Option<int>) {
    status == StatusApproved && result == ResultApproved && approvedAt.Some?
  }

  /** Whatever is stored was bound to this app by description and name, and it reads as an approval exactly
      when the verdict was an approval or only incomplete. */
  lemma RecordableMeansBound(review: Review, bindingText: string, serviceName: string, now: int)
    requires Recordable(Verify(Some(review), bindingText, serviceName, now))
    ensures BindingMatches(review.description, bindingText) && review.serviceName == serviceName != ""
    ensures SaysApproved(review.status, review.finalResult, review.approvedAt)
            <==> Verify(Some(review), bindingText, serviceName, now) in {Approves, Refuses(Incomplete)}
  {
  }

  /** Approved on both axes, at a moment that is given and not further ahead than five minutes. */
  ghost predicate ApprovedInTime(r: Review, now: int) {
    && r.status == StatusApproved && r.finalResult == ResultApproved
    && r.approvedAt.Some? && r.approvedAt.value != 0 && r.approvedAt.value <= now + 5 * 60 * 1_000_000_000
  }

  /** The service's answer names the app, and says of every kind of finding how many are open. */
  ghost predicate NamedAndCounted(r: Review, serviceName: string) {
    && serviceName != "" && r.serviceName == serviceName
    && r.blockers.unreviewed.Some? && r.blockers.unverified.Some? && r.blockers.stale.Some?
  }

  /** When each verdict comes. A well-formed answer that is not bound to this app is reported as the mismatch it is,
      approved or not; one that is bound, named and counted is "not approved" as soon as either axis says so; an
      approval is bound, named, dated and approved on both axes with nothing left open. */
  lemma VerdictsExactly(r: Review, bindingText: string, serviceName: string, now: int)
    requires ValidReviewId(r.id) && !r.status.UnknownStatus? && !r.finalResult.UnknownResult?
    ensures var verdict := Verify(Some(r), bindingText, serviceName, now);
            var bound := BindingMatches(r.description, bindingText);
            && (verdict == Refuses(BindingMismatch) <==> !bound)
            && (verdict == Refuses(ServiceMismatch) <==> bound && (serviceName == "" || r.serviceName != serviceName))
            && (verdict == Refuses(NotApproved) <==>
                  && bound && NamedAndCounted(r, serviceName)
                  && (r.status != StatusApproved || r.finalResult != ResultApproved))
            && (verdict == Refuses(Incomplete) <==>
                  && bound && NamedAndCounted(r, serviceName) && ApprovedInTime(r, now)
                  && r.blockers != Blockers(Some(0), Some(0), Some(0)))
            && (verdict == Approves <==>
                  && bound && r.serviceName == serviceName != "" && ApprovedInTime(r, now)
                  && r.blockers == Blockers(Some(0), Some(0), Some(0)))
            && (verdict == Refuses(InvalidResponse) <==>
                  && bound && r.serviceName == serviceName != ""
                  && (NamedAndCounted(r, serviceName) ==>
                        && r.status == StatusApproved && r.finalResult == ResultApproved && !ApprovedInTime(r, now)))
  {
    hide BindingMatches;
  }

  /** No answer, or one that is not well formed, is an invalid response. */
  lemma MalformedIsInvalid(review: Option<Review>, bindingText: string, serviceName: string, now: int)
    requires review.None? || !ValidReviewId(review.value.id) || review.value.status.UnknownStatus?
             || review.value.finalResult.UnknownResult?
    ensures Verify(review, bindingText, serviceName, now) == Refuses(InvalidResponse)
  {
  }

  /** Every identifier in its canonical text is one a review can have. */
  lemma CanonicalIdIsValid(u: Uuid)
    ensures ValidReviewId(FormatUuid(u))
  {
    var h, s := Hex(u, 32), FormatUuid(u);
    assert s[8] == s[13] == s[18] == s[23] == '-';
    FormatParts(u);
    forall i | 0 <= i < 36 && i !in {8, 13, 18, 23} ensures IsReviewHex(s[i]) {
      var k := if i < 8 then i else if i < 13 then i - 1 else if i < 18 then i - 2 else if i < 23 then i - 3 else i - 4;
      assert s[i] == h[k] && IsHex(h[k]);
    }
  }

  /** Letter case does not matter in an identifier. */
  lemma LetterCaseIsFree(id: string)
    ensures ValidReviewId(Lower(id)) <==> ValidReviewId(id)
  {
    forall i | 0 <= i < |id| ensures IsReviewHex(Lower(id)[i]) == IsReviewHex(id[i]) {
      assert Lower(id)[i] == LowerChar(id[i]);
    }
  }

  lemma ReviewIdIsTrimmed(id: string)
    requires ValidReviewId(id)
    ensures Trim(id) == id
  {
    assert !IsSpace(id[0]) && !IsSpace(id[35]);
  }
}
