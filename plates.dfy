/** Rwandan plate formats: the strict check both camera lanes apply to OCR text
    (car_entry.py and car_exit.py, `validate_plate`) and the laxer check the payment
    daemon applies to plates read from a card (process_payment.py, `is_valid_plate`). */
module Plates {
  import opened Text

  const PlateLength: nat := 7
  const Prefix: string := "RA"

  /** `re.fullmatch(r"RA[A-Z0-9]{5}", p)` */
  predicate HasPlateShape(p: string)
  {
    |p| == PlateLength && p[..2] == Prefix && forall k :: 2 <= k < |p| ==> IsUpperAlnum(p[k])
  }

  function DigitCount(s: string): (n: nat)
    ensures n <= |s|
  {
    if s == [] then 0 else (if IsDigit(s[0]) then 1 else 0) + DigitCount(s[1..])
  }

  /** A confirmed plate: the shape above with at least two digits among the five
      characters after "RA". */
  predicate IsConfirmedPlate(p: string)
  {
    HasPlateShape(p) && DigitCount(p[2..]) >= 2
  }

  /** `validate_plate(text)`: the seven characters starting at the FIRST "RA" of the
      text, if they form a confirmed plate; None otherwise. */
  function ValidatePlate(text: string): (r: Option<string>)
    ensures r.Some? ==> IsConfirmedPlate(r.value)
    ensures r.Some? <==> (Find(text, Prefix).Some? &&
                          Find(text, Prefix).value + PlateLength <= |text| &&
                          IsConfirmedPlate(text[Find(text, Prefix).value..Find(text, Prefix).value + PlateLength]))
    ensures r.Some? ==> r.value == text[Find(text, Prefix).value..Find(text, Prefix).value + PlateLength]
  {
    if text == [] || !Contains(text, Prefix) then None
    else
      var idx := Find(text, Prefix).value;
      var candidate := text[idx..if idx + PlateLength <= |text| then idx + PlateLength else |text|];
      if |candidate| != PlateLength then None
      else if !HasPlateShape(candidate) then None
      else if DigitCount(candidate[2..]) < 2 then None
      else Some(candidate)
  }

  /** `is_valid_plate(plate)` */
  predicate IsValidPlate(plate: string)
  {
    HasPlateShape(plate)
  }

  /** Applying the lane check to a plate it produced gives the same plate back. */
  lemma ValidatePlateIdempotent(text: string)
    requires ValidatePlate(text).Some?
    ensures ValidatePlate(ValidatePlate(text).value) == ValidatePlate(text)
  {
    var p := ValidatePlate(text).value;
    assert OccursAt(p, Prefix, 0);
    assert Find(p, Prefix) == Some(0);
    assert p[0..PlateLength] == p;
  }

  /** A confirmed plate is accepted by the lane check as it stands. */
  lemma ConfirmedPlateAccepted(p: string)
    requires IsConfirmedPlate(p)
    ensures ValidatePlate(p) == Some(p)
  {
    assert OccursAt(p, Prefix, 0);
    assert Find(p, Prefix) == Some(0);
    assert p[0..PlateLength] == p;
  }

  /** Only the first "RA" is tried: when the seven characters there fail, a later
      occurrence of "RA" that would pass does not rescue the text. */
  lemma {:induction false} OnlyFirstPrefixTried(text: string, j: nat)
    requires Find(text, Prefix).Some? && Find(text, Prefix).value < j
    requires j + PlateLength <= |text| && IsConfirmedPlate(text[j..j + PlateLength])
    requires var i := Find(text, Prefix).value;
             !(i + PlateLength <= |text| && IsConfirmedPlate(text[i..i + PlateLength]))
    ensures ValidatePlate(text) == None
  {
  }

  /** The lane check is stricter than the payment check: every confirmed plate has
      the payment shape, but the payment check also takes plates with fewer than two
      digits. */
  lemma ConfirmedIsValid(p: string)
    ensures IsConfirmedPlate(p) ==> IsValidPlate(p)
    ensures IsValidPlate("RAABCDE") && !IsConfirmedPlate("RAABCDE")
  {
    assert DigitCount("ABCDE") == 0;
  }

  /** A plate of the payment shape is unchanged by `.strip().upper()`. */
  lemma {:induction false} ValidPlateNormalised(p: string)
    requires IsValidPlate(p)
    ensures Upper(Strip(p)) == p
  {
    assert !IsSpace(p[0]) && !IsSpace(p[|p| - 1]);
    TrimUnchanged(p);
    assert forall k :: 0 <= k < |p| ==> UpperChar(p[k]) == p[k];
  }
}
