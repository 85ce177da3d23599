/** Finding an anchor in normalised text, digit by digit for numbers: an occurrence counts unless a digit
    of the text continues a digit at one of its ends. */
module LiteralSearch {

  /** Normalised text has ASCII digits only. */
  predicate IsDigit(c: char) {
    '0' <= c <= '9'
  }

  predicate OccursAt(text: string, literal: string, at: nat) {
    at + |literal| <= |text| && text[at..at + |literal|] == literal
  }

  /** An occurrence with no digit of the text touching a digit end of the literal. */
  predicate StandsAt(text: string, literal: string, at: nat)
    requires literal != []
  {
    var end := at + |literal|;
    && OccursAt(text, literal, at)
    && !(IsDigit(literal[0]) && at > 0 && IsDigit(text[at - 1]))
    && !(IsDigit(literal[|literal| - 1]) && end < |text| && IsDigit(text[end]))
  }

  datatype Found = Nowhere | At(index: nat)

  /** The first occurrence at or after `start`. */
  function Find(text: string, literal: string, start: nat): (r: Found)
    ensures r.At? ==> start <= r.index && OccursAt(text, literal, r.index)
    ensures r.At? ==> forall i :: start <= i < r.index ==> !OccursAt(text, literal, i)
    ensures r.Nowhere? ==> forall i :: start <= i ==> !OccursAt(text, literal, i)
    decreases |text| - start
  {
    if start + |literal| > |text| then Nowhere
    else if OccursAt(text, literal, start) then At(start)
    else Find(text, literal, start + 1)
  }

  ghost predicate StandsBefore(text: string, literal: string, end: nat)
    requires literal != []
  {
    exists at: nat :: at < end && StandsAt(text, literal, at)
  }

  /** Looks at every occurrence, overlapping ones included, until one stands on its own. */
  method LiteralIn(literal: string, text: string) returns (found: bool)
    ensures found <==> literal != [] && exists at: nat :: StandsAt(text, literal, at)
  {
    if literal == [] {
      return false;
    }
    var start: nat := 0;
    var next := Find(text, literal, start);
    while next.At?
      invariant next.At? ==> start <= next.index && OccursAt(text, literal, next.index)
      invariant forall i: nat :: start <= i && (next.At? ==> i < next.index) ==> !OccursAt(text, literal, i)
      invariant !StandsBefore(text, literal, start)
      decreases |text| - start
    {
      var stands := EndsAreFree(literal, text, next.index);
      if stands {
        return true;
      }
      start := next.index + 1;
      next := Find(text, literal, start);
    }
    return false;
  }

  method EndsAreFree(literal: string, text: string, at: nat) returns (free: bool)
    requires literal != [] && OccursAt(text, literal, at)
    ensures free <==> StandsAt(text, literal, at)
  {
    var end := at + |literal|;
    var digitBefore := at > 0 && IsDigit(text[at - 1]);
    var digitAfter := end < |text| && IsDigit(text[end]);
    free := !(IsDigit(literal[0]) && digitBefore) && !(IsDigit(literal[|literal| - 1]) && digitAfter);
  }

  // ---------------------------------------------------------------- numbers

  predicate AllDigits(s: string) {
    forall c :: c in s ==> IsDigit(c)
  }

  /** A number of the text: a run of digits that no digit extends. */
  predicate IsRun(text: string, i: nat, j: nat) {
    && i < j <= |text|
    && AllDigits(text[i..j])
    && (i > 0 ==> !IsDigit(text[i - 1]))
    && (j < |text| ==> !IsDigit(text[j]))
  }

  ghost predicate HasNumber(text: string, number: string) {
    exists i: nat, j: nat :: IsRun(text, i, j) && text[i..j] == number
  }

  /** For a literal of digits only, standing on its own is being one of the text's numbers. */
  lemma ANumberMatchesOnlyAWholeNumber(text: string, literal: string)
    requires literal != [] && AllDigits(literal)
    ensures (exists at: nat :: StandsAt(text, literal, at)) <==> HasNumber(text, literal)
  {
    assert IsDigit(literal[0]) && IsDigit(literal[|literal| - 1]);
    if at: nat :| StandsAt(text, literal, at) {
      assert IsRun(text, at, at + |literal|);
    }
    if HasNumber(text, literal) {
      var i: nat, j: nat :| IsRun(text, i, j) && text[i..j] == literal;
      assert StandsAt(text, literal, i);
    }
  }

  /** What makes an occurrence stand: only the digit ends of the literal look at their neighbours. */
  lemma OnlyDigitEndsLookAround(text: string, literal: string, at: nat)
    requires literal != [] && at + |literal| <= |text| && text[at..at + |literal|] == literal
    ensures var first, last := '0' <= literal[0] <= '9', '0' <= literal[|literal| - 1] <= '9';
            var front, back := at > 0 && '0' <= text[at - 1] <= '9',
                               at + |literal| < |text| && '0' <= text[at + |literal|] <= '9';
            && (first && !last ==> (StandsAt(text, literal, at) <==> !front))
            && (!first && last ==> (StandsAt(text, literal, at) <==> !back))
            && (first && last ==> (StandsAt(text, literal, at) <==> !front && !back))
            && (!first && !last ==> StandsAt(text, literal, at))
  {
  }

  /** A literal without digits at its ends is matched wherever it occurs. */
  lemma AWordMatchesAnywhere(text: string, literal: string)
    requires literal != [] && !IsDigit(literal[0]) && !IsDigit(literal[|literal| - 1])
    ensures (exists at: nat :: StandsAt(text, literal, at)) <==> exists at: nat :: OccursAt(text, literal, at)
  {
    if at: nat :| OccursAt(text, literal, at) {
      assert StandsAt(text, literal, at);
    }
  }

  /** An all-digit literal never matches inside one longer number. */
  lemma ANumberIsNotInALongerOne(number: string, longer: string, at: nat)
    requires number != [] && AllDigits(number) && AllDigits(longer) && |number| < |longer|
    ensures !StandsAt(longer, number, at)
  {
    assert IsDigit(number[0]) && IsDigit(number[|number| - 1]);
    if at + |number| < |longer| {
      assert longer[at + |number|] in longer;
    }
    if 0 < at <= |longer| {
      assert longer[at - 1] in longer;
    }
  }

  // ---------------------------------------------------------------- every number of an OCR text

  /** The OCR score's own number check: the expected text's numbers are all among the actual's. */
  ghost predicate NumbersPreserved(expected: string, actual: string) {
    forall number :: HasNumber(expected, number) ==> HasNumber(actual, number)
  }

  /** It asks of every number of the expected text what the digit-aware search asks of an anchor. */
  lemma PreservedNumbersAreFound(expected: string, actual: string)
    ensures NumbersPreserved(expected, actual) <==>
              forall number :: HasNumber(expected, number) ==>
                exists at: nat :: number != [] && StandsAt(actual, number, at)
  {
    forall number | HasNumber(expected, number)
      ensures HasNumber(actual, number) <==> exists at: nat :: number != [] && StandsAt(actual, number, at)
    {
      var i: nat, j: nat :| IsRun(expected, i, j) && expected[i..j] == number;
      ANumberMatchesOnlyAWholeNumber(actual, number);
    }
  }
}
