/**
 * `POST /api/pdf-rotate`: turn every page of the uploaded `file` by the
 * `angle` part (90, 180 or 270 degrees) and reply with the new PDF in base64,
 * the angle and the page count.
 */
module PdfRotate {
  import opened JsValues
  import opened Http
  import opened PdfDocuments

  /** The JSON body of a successful rotation. */
  datatype RotationReply = RotationReply(file: string, angle: int, pages: nat)

  const Failure := HttpError(500, "Error rotando PDF")

  /**
   * `Number(angleParam)`: the text of the `angle` part, or `Number(undefined)`,
   * which is NaN, when there is no form or no such part.
   */
  function AngleValue(form: Option<seq<Part>>, text: Bytes -> string): (v: NumberValue)
    ensures form.None? || FindPart(form.value, "angle").None? ==> v == NotANumber
    ensures form.Some? && FindPart(form.value, "angle").Some? && text(FindPart(form.value, "angle").value.data) == "" ==> v == Decimal(0, 0)
    ensures form.Some? && FindPart(form.value, "angle").Some? ==> v == StringToNumber(text(FindPart(form.value, "angle").value.data))
  {
    if form.None? then NotANumber
    else
      match FindPart(form.value, "angle")
      case None => NotANumber
      case Some(part) => StringToNumber(text(part.data))
  }

  /** `[90, 180, 270].includes(angle)`: the accepted angle, if the number is one. */
  function AcceptedAngle(v: NumberValue): (a: Option<int>)
    ensures a.Some? <==> NumberIs(v, 90) || NumberIs(v, 180) || NumberIs(v, 270)
    ensures a.Some? ==> NumberIs(v, a.value) && a.value in {90, 180, 270}
  {
    if NumberIs(v, 90) then Some(90)
    else if NumberIs(v, 180) then Some(180)
    else if NumberIs(v, 270) then Some(270)
    else None
  }

  /**
   * The handler. A missing file is a 400, checked before the angle; an angle
   * that is not exactly 90, 180 or 270 is another 400. A file that does not
   * parse and a failed save are one 500. Otherwise the saved document is
   * every page turned by the angle, added to its own rotation, and the reply
   * echoes the angle and the page count.
   */
  method Rotate(form: Option<seq<Part>>, text: Bytes -> string, lib: PdfLib, base64: Bytes -> string)
    returns (out: PdfOutcome<RotationReply>)
    ensures form.None? || FindPart(form.value, "file").None? ==>
              out == PdfOutcome(Err(HttpError(400, "Archivo no válido")), None)
    ensures form.Some? && FindPart(form.value, "file").Some? && AcceptedAngle(AngleValue(form, text)).None? ==>
              out == PdfOutcome(Err(HttpError(400, "Ángulo inválido")), None)
    ensures out.saved.Some? <==>
              && form.Some? && FindPart(form.value, "file").Some? && AcceptedAngle(AngleValue(form, text)).Some?
              && lib.load(FindPart(form.value, "file").value.data).Some?
    ensures out.saved.Some? ==>
              out.saved.value == Rotated(lib.load(FindPart(form.value, "file").value.data).value,
                                         AcceptedAngle(AngleValue(form, text)).value)
    ensures out.reply.Err? && form.Some? && FindPart(form.value, "file").Some? && AcceptedAngle(AngleValue(form, text)).Some? ==>
              out.reply.error == Failure
    ensures out.reply.Ok? <==> out.saved.Some? && lib.save(out.saved.value).Some?
    ensures out.reply.Ok? ==>
              out.reply.value == RotationReply(base64(lib.save(out.saved.value).value),
                                               AcceptedAngle(AngleValue(form, text)).value,
                                               |out.saved.value|)
  {
    var file := if form.Some? then FindPart(form.value, "file") else None;
    if file.None? {
      return PdfOutcome(Err(HttpError(400, "Archivo no válido")), None);
    }
    var angle := AcceptedAngle(AngleValue(form, text));
    if angle.None? {
      return PdfOutcome(Err(HttpError(400, "Ángulo inválido")), None);
    }

    var parsed := lib.load(file.value.data);
    if parsed.None? {
      return PdfOutcome(Err(Failure), None);
    }
    var pdfDoc := new PdfDocument.Load(parsed.value);
    var count := |pdfDoc.pages|;
    TurnPages(pdfDoc, angle.value);

    var pdfBytes := lib.save(pdfDoc.pages);
    if pdfBytes.None? {
      return PdfOutcome(Err(Failure), Some(pdfDoc.pages));
    }
    out := PdfOutcome(Ok(RotationReply(base64(pdfBytes.value), angle.value, count)), Some(pdfDoc.pages));
  }

  /**
   * `pages.forEach(page => page.setRotation(degrees(page.getRotation().angle + angle)))`:
   * each page in turn gets its current rotation plus the angle.
   */
  method TurnPages(pdfDoc: PdfDocument, angle: int)
    modifies pdfDoc
    ensures pdfDoc.pages == Rotated(old(pdfDoc.pages), angle)
  {
    ghost var original := pdfDoc.pages;
    var i := 0;
    while i < |pdfDoc.pages|
      invariant 0 <= i <= |pdfDoc.pages| == |original|
      invariant pdfDoc.pages[..i] == Rotated(original[..i], angle)
      invariant pdfDoc.pages[i..] == original[i..]
    {
      ghost var before := pdfDoc.pages;
      var currentRotation := pdfDoc.pages[i].rotation;
      pdfDoc.SetRotation(i, currentRotation + angle);
      assert pdfDoc.pages[..i + 1] == before[..i] + [pdfDoc.pages[i]];
      assert original[..i + 1] == original[..i] + [original[i]];
      assert pdfDoc.pages[i + 1..] == before[i + 1..];
      i := i + 1;
    }
    assert pdfDoc.pages == pdfDoc.pages[..i];
    assert original == original[..i];
  }

  /** An angle written as a decimal integer is accepted exactly when it is 90, 180 or 270. */
  lemma DecimalAngles(n: int)
    ensures AcceptedAngle(StringToNumber(IntToString(n))) == if n in {90, 180, 270} then Some(n) else None
  {
    StringToNumberOfIntToString(n);
    assert Pow10(0) == 1;
  }

  /** `Number` also reads `" 0x5A "`, `"9e1"` and `"90.0"` as 90, so each is a quarter turn. */
  lemma SpellingsOfNinety()
    ensures AcceptedAngle(StringToNumber(" 0x5A ")) == Some(90)
    ensures AcceptedAngle(StringToNumber("9e1")) == Some(90)
    ensures AcceptedAngle(StringToNumber("90.0")) == Some(90)
  {
    HexNinety();
    ExponentNinety();
    FractionNinety();
    assert Pow10(1) == 10;
  }

  lemma HexNinety()
    ensures StringToNumber(" 0x5A ") == Decimal(90, 0)
  {
    var t := TrimEnd(TrimStart(" 0x5A "));
    HexTrimmed();
    assert t[0] == '0' && NonDecimalRadix(t[1]) == 16;
    assert t[2..] == "5A";
    HexDigitsValue();
  }

  lemma HexTrimmed()
    ensures TrimEnd(TrimStart(" 0x5A ")) == "0x5A"
  {
    assert " 0x5A "[1..] == "0x5A ";
    TrimStartNoSpace("0x5A ");
    assert "0x5A "[..4] == "0x5A";
  }

  lemma HexDigitsValue()
    ensures AllDigits("5A", 16) && DigitsValue("5A", 16) == 90
  {
    assert "5A"[..1] == "5";
    assert "5"[..0] == "";
  }

  lemma ExponentNinety()
    ensures StringToNumber("9e1") == Decimal(9, 1)
  {
    NumberOfDecimalLiteral("9e1");
    assert DigitPrefix("9e1", 10) == "9" by {
      DigitPrefixOfDigits("9", "e1", 10);
      assert "9" + "e1" == "9e1";
    }
    assert "9e1"[1..] == "e1";
    assert ExponentPart("e1") == Some(1) by {
      assert "e1"[1..] == "1";
      assert "1"[..0] == "";
    }
    assert "9" + "" == "9";
    assert "9"[..0] == "";
  }

  lemma FractionNinety()
    ensures StringToNumber("90.0") == Decimal(900, -1)
  {
    NumberOfDecimalLiteral("90.0");
    FractionUnsigned();
  }

  lemma FractionUnsigned()
    ensures UnsignedDecimal("90.0") == Decimal(900, -1)
  {
    FractionDigitPrefixes();
    FractionDigitsValue();
    assert "90.0"[2..] == ".0";
    assert ".0"[1..] == "0";
    assert ".0"[2..] == "";
    assert "90" + "0" == "900";
  }

  lemma FractionDigitPrefixes()
    ensures DigitPrefix("90.0", 10) == "90" && DigitPrefix("0", 10) == "0"
  {
    DigitPrefixOfDigits("90", ".0", 10);
    assert "90" + ".0" == "90.0";
    DigitPrefixOfDigits("0", "", 10);
    assert "0" + "" == "0";
  }

  lemma FractionDigitsValue()
    ensures AllDigits("900", 10) && DigitsValue("900", 10) == 900
  {
    assert "900"[..2] == "90";
    assert "90"[..1] == "9";
    assert "9"[..0] == "";
  }

  /** An empty `angle` part is the number 0, and a missing one is NaN: both are refused. */
  lemma EmptyAndMissingAngleRefused(form: seq<Part>, text: Bytes -> string)
    requires FindPart(form, "angle").None? || text(FindPart(form, "angle").value.data) == ""
    ensures AcceptedAngle(AngleValue(Some(form), text)).None?
  {
  }
}
