/**
 * `src/api/routes_bot.py`: the `/bot` endpoint, a stub that reads the posted
 * text as a parcel id when it is all digits and as a village name otherwise,
 * and answers with a JSON object pointing at the matching report.
 */
module RoutesBot {
  import opened PyStr

  /** The JSON values the endpoint emits. */
  datatype Json = JBool(b: bool) | JInt(i: int) | JStr(s: string)

  /** A JSON object as it is rendered: its members in insertion order. */
  type Object = seq<(string, Json)>

  const ParcelReport: string := "/report/parcel/"
  const VillageReport: string := "/report/village/"

  /** The `info` dict built from the stripped text `t`. */
  function Info(t: string): (info: Object)
    ensures |info| == 3 && info[0].0 == "type" && info[2].0 == "report"
  {
    if IsDigits(t) then
      [("type", JStr("parcel")), ("id", JInt(DigitsValue(t))), ("report", JStr(ParcelReport + t))]
    else
      [("type", JStr("village")), ("name", JStr(t)), ("report", JStr(VillageReport + t))]
  }

  /** `bot(text)`: `{"ok": True, **info}`; the reply always has four members and `ok` is always true. */
  function Bot(text: string): (body: Object)
    ensures |body| == 4
    ensures body[0] == ("ok", JBool(true))
  {
    [("ok", JBool(true))] + Info(Strip(text))
  }

  /** The reply is about a parcel exactly when the stripped text is non-empty and all digits, and about a village otherwise. */
  lemma BotKind(text: string)
    ensures Bot(text)[1].1 == JStr("parcel") <==> IsDigits(Strip(text))
    ensures Bot(text)[1].1 == JStr("village") <==> !IsDigits(Strip(text))
  {
  }

  /** A parcel reply carries the decimal value of the stripped text and links to its report by that same text. */
  lemma BotParcel(text: string)
    requires IsDigits(Strip(text))
    ensures var t, body := Strip(text), Bot(text);
            && body[2] == ("id", JInt(DigitsValue(t)))
            && body[3] == ("report", JStr(ParcelReport + t))
            && DigitsValue(t) >= 0
            && (t[0] != '0' || t == "0" ==> IntToStr(DigitsValue(t)) == t)
  {
    var t := Strip(text);
    if t[0] != '0' || t == "0" {
      DigitsRoundTrip(t);
    }
  }

  /** A village reply names the stripped text, which has no surrounding whitespace, and links to that village's report. */
  lemma BotVillage(text: string)
    requires !IsDigits(Strip(text))
    ensures var t, body := Strip(text), Bot(text);
            && body[2] == ("name", JStr(t))
            && body[3] == ("report", JStr(VillageReport + t))
            && (t != [] ==> !IsSpace(t[0]) && !IsSpace(t[|t| - 1]))
  {
  }

  /** Surrounding whitespace never changes the reply. */
  lemma BotIgnoresWhitespace(text: string)
    ensures Bot(Strip(text)) == Bot(text)
  {
    StripIdempotent(text);
  }

  /** Posting `str(n)` for any parcel number `n` gives a parcel reply with id `n` and report `/report/parcel/` + `str(n)`. */
  lemma BotNumber(n: nat)
    ensures Bot(NatToStr(n)) == [("ok", JBool(true)), ("type", JStr("parcel")), ("id", JInt(n)),
                                 ("report", JStr(ParcelReport + NatToStr(n)))]
  {
    var s := NatToStr(n);
    assert !IsSpace(s[0]) && !IsSpace(s[|s| - 1]);
    StripNoOp(s);
    NatToStrRoundTrip(n);
  }

  /** Leading zeros are dropped from the id but kept in the report link: "007" gives id 7 and `/report/parcel/007`. */
  lemma BotLeadingZeros()
    ensures Bot("007") == [("ok", JBool(true)), ("type", JStr("parcel")), ("id", JInt(7)),
                           ("report", JStr("/report/parcel/007"))]
  {
    StripNoOp("007");
    assert IsDigits("007");
    assert DigitsValue("007") == 7 by {
      assert "007"[..2] == "00" && "00"[..1] == "0";
    }
    assert ParcelReport + "007" == "/report/parcel/007";
  }

  /** Empty or blank text is not a parcel id: it is the village with the empty name. */
  lemma BotBlank()
    ensures Bot("") == [("ok", JBool(true)), ("type", JStr("village")), ("name", JStr("")),
                        ("report", JStr(VillageReport))]
    ensures Bot("  ") == Bot("")
  {
    assert Strip("") == "";
    assert VillageReport + "" == VillageReport;
    StripSkipsLeadingSpace(' ', " ");
    StripSkipsLeadingSpace(' ', "");
    assert "  " == [' '] + " " && " " == [' '] + "";
  }

  /** A sign is not a digit, so "-5" names a village rather than a parcel. */
  lemma BotSigned()
    ensures Bot("-5")[1] == ("type", JStr("village"))
    ensures Bot("-5")[2] == ("name", JStr("-5"))
  {
    assert Strip("-5") == "-5" by {
      StripNoOp("-5");
    }
  }
}
