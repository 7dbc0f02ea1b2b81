/** The fee lines stored with an order (`src/modules/brokerage/fees-json.ts`): written as JSON
    with decimal texts, read back defensively, summed per code. */
module FeesJson {
  import opened Decimals
  import opened CanonicalJson
  import opened SdbFiles
  import Fees

  datatype Stored = Stored(code: string, amount: string, title: string)

  function CodeText(code: Fees.FeeCode): string {
    match code
    case COURTAGE_SDB => "COURTAGE_SDB"
    case COMMISSION_ALKE => "COMMISSION_ALKE"
    case TAXE => "TAXE"
  }

  function ItemOf(l: Fees.FeeLine, title: string): Json {
    Obj([Field("code", Str(CodeText(l.code))), Field("amount", Str(FormatQuantity(l.amount))), Field("label", Str(title))])
  }

  /** `feesToJson`; labels are the schedules' own. */
  function FeesToJson(lines: seq<Fees.FeeLine>, title: Fees.FeeCode -> string): seq<Json> {
    if lines == [] then [] else [ItemOf(lines[0], title(lines[0].code))] + FeesToJson(lines[1..], title)
  }

  function Lookup(fields: seq<Field>, key: string): Maybe<Json> {
    if fields == [] then Nothing else if fields[0].key == key then Just(fields[0].value) else Lookup(fields[1..], key)
  }

  /** One stored item; anything that is not a line gives none. */
  function ReadItem(item: Json): seq<Stored> {
    if !item.Obj? then []
    else
      var code, amount, title := Lookup(item.fields, "code"), Lookup(item.fields, "amount"), Lookup(item.fields, "label");
      if code.Nothing? || !code.value.Str? || amount.Nothing? || !(amount.value.Str? || amount.value.Num?) then []
      else
        [Stored(code.value.s, if amount.value.Str? then amount.value.s else amount.value.text,
                if title.Just? && title.value.Str? then title.value.s else code.value.s)]
  }

  function ReadItems(items: seq<Json>): seq<Stored> {
    if items == [] then [] else ReadItem(items[0]) + ReadItems(items[1..])
  }

  /** `feeLinesFromJson`: an absent or foreign value holds no lines. */
  function FeeLinesFromJson(json: Maybe<Json>): seq<Stored> {
    if json.Just? && json.value.Arr? then ReadItems(json.value.items) else []
  }

  /** The sum of a code's lines; Nothing when an amount is no decimal of the grid. */
  function PickStored(lines: seq<Stored>, code: string): Maybe<Dec> {
    if lines == [] then Just(0)
    else
      var rest := PickStored(lines[1..], code);
      if lines[0].code != code then rest
      else
        var amount := ReadDecimal(lines[0].amount);
        if rest.Just? && amount.Just? then Just(amount.value + rest.value) else Nothing
  }

  lemma CodesApart(a: Fees.FeeCode, b: Fees.FeeCode)
    ensures CodeText(a) == CodeText(b) <==> a == b
  {
    assert |CodeText(Fees.COURTAGE_SDB)| == 12 && |CodeText(Fees.COMMISSION_ALKE)| == 15 && |CodeText(Fees.TAXE)| == 4;
  }

  lemma ItemRead(l: Fees.FeeLine, title: string)
    ensures ReadItem(ItemOf(l, title)) == [Stored(CodeText(l.code), FormatQuantity(l.amount), title)]
  {
    var fields := [Field("code", Str(CodeText(l.code))), Field("amount", Str(FormatQuantity(l.amount))), Field("label", Str(title))];
    assert fields[1..] == [fields[1], fields[2]] && fields[1..][1..] == [fields[2]];
    assert |fields[0].key| == 4 && |fields[1].key| == 6 && |fields[2].key| == 5;
    assert Lookup(fields, "code") == Just(fields[0].value);
    assert Lookup(fields, "amount") == Lookup(fields[1..], "amount") == Just(fields[1].value);
    assert Lookup(fields, "label") == Lookup(fields[1..], "label") == Lookup(fields[1..][1..], "label") == Just(fields[2].value);
  }

  lemma ItemsCons(item: Json, rest: seq<Json>)
    ensures ReadItems([item] + rest) == ReadItem(item) + ReadItems(rest)
  {
    assert ([item] + rest)[1..] == rest;
  }

  lemma PickCons(s: Stored, rest: seq<Stored>, code: string, amount: Dec, sum: Dec)
    requires ReadDecimal(s.amount) == Just(amount) && PickStored(rest, code) == Just(sum)
    ensures PickStored([s] + rest, code) == Just(if s.code == code then amount + sum else sum)
  {
    assert ([s] + rest)[1..] == rest;
  }

  lemma OneMoreFee(l: Fees.FeeLine, title: string, rest: seq<Json>, code: Fees.FeeCode, sum: Dec)
    requires PickStored(ReadItems(rest), CodeText(code)) == Just(sum)
    ensures PickStored(ReadItems([ItemOf(l, title)] + rest), CodeText(code)) ==
            Just(if l.code == code then l.amount + sum else sum)
  {
    ItemRead(l, title);
    ItemsCons(ItemOf(l, title), rest);
    QuantityRoundTrip(l.amount);
    CodesApart(l.code, code);
    PickCons(Stored(CodeText(l.code), FormatQuantity(l.amount), title), ReadItems(rest), CodeText(code), l.amount, sum);
  }

  lemma {:induction false} ItemsSurvive(lines: seq<Fees.FeeLine>, title: Fees.FeeCode -> string, code: Fees.FeeCode)
    ensures PickStored(ReadItems(FeesToJson(lines, title)), CodeText(code)) == Just(Fees.Pick(lines, code))
  {
    if lines != [] {
      ItemsSurvive(lines[1..], title, code);
      OneMoreFee(lines[0], title(lines[0].code), FeesToJson(lines[1..], title), code, Fees.Pick(lines[1..], code));
    }
  }

  /** The fees read back from an order are, code by code, the fees it was placed with. */
  lemma FeesSurviveStorage(lines: seq<Fees.FeeLine>, title: Fees.FeeCode -> string, code: Fees.FeeCode)
    ensures PickStored(FeeLinesFromJson(Just(Arr(FeesToJson(lines, title)))), CodeText(code)) == Just(Fees.Pick(lines, code))
  {
    ItemsSurvive(lines, title, code);
  }

  /** Items that are no fee lines are skipped, wherever they stand. */
  lemma {:induction false} ForeignItemsSkipped(before: seq<Json>, item: Json, after: seq<Json>)
    requires ReadItem(item) == []
    ensures ReadItems(before + [item] + after) == ReadItems(before + after)
  {
    if before == [] {
      assert before + [item] + after == [item] + after && before + after == after;
      assert ([item] + after)[1..] == after;
    } else {
      ForeignItemsSkipped(before[1..], item, after);
      assert (before + [item] + after)[1..] == before[1..] + [item] + after && (before + after)[1..] == before[1..] + after;
    }
  }
}
