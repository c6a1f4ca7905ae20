/**
 The order validator and pricer behind `POST /orders`: the component catalog,
 the required categories, the validation loop of `create_order` and the order
 id it generates. The HTTP layer is reduced to the request's `components`
 field on the way in and the success/error variants of `OrderResult` on the
 way out. Prices are integer cents.
 */
module Orders {
  import opened StringOrder
  import opened Decimal

  /** One catalog entry: its price, its display name and its category. */
  datatype Component = Component(priceCents: nat, part: string, category: string)

  /** The client's `components` field: missing, a JSON list of codes, or any other JSON value. */
  datatype ComponentsField = Absent | CodeList(codes: seq<string>) | NotAList

  /** What the handler answers: 201 with the order, or a 400 of one of four kinds. */
  datatype OrderResult =
    | Ok(orderId: string, totalCents: nat, orderedParts: seq<string>)
    | InvalidShape
    | UnknownComponent(code: string)
    | DuplicateCategory(category: string)
    | MissingCategories

  /** The fixed catalog of twelve components. */
  const ComponentData: map<string, Component> := map[
    "A" := Component(1028, "LED Screen", "Screen"),
    "B" := Component(2407, "OLED Screen", "Screen"),
    "C" := Component(3330, "AMOLED Screen", "Screen"),
    "D" := Component(2594, "Wide-Angle Camera", "Camera"),
    "E" := Component(3239, "Ultra-Wide-Angle Camera", "Camera"),
    "F" := Component(1877, "USB-C Port", "Port"),
    "G" := Component(1513, "Micro-USB Port", "Port"),
    "H" := Component(2000, "Lightning Port", "Port"),
    "I" := Component(4231, "Android OS", "OS"),
    "J" := Component(4500, "iOS OS", "OS"),
    "K" := Component(4500, "Metallic Body", "Body"),
    "L" := Component(3000, "Plastic Body", "Body")
  ]

  /** The categories every order must cover exactly once. */
  const RequiredCategories: set<string> := {"Screen", "Camera", "Port", "OS", "Body"}

  /** The handler's loop state: still going with what it has collected, or stopped on an error. */
  datatype Scan =
    | Scanning(selected: set<string>, parts: seq<string>, total: nat)
    | Stopped(error: OrderResult)

  /** One iteration of the validation loop on `code`. */
  function Step(catalog: map<string, Component>, st: Scan, code: string): Scan
  {
    match st
    case Stopped(_) => st
    case Scanning(selected, parts, total) =>
      if code !in catalog then Stopped(UnknownComponent(code))
      else
        var info := catalog[code];
        if info.category in selected then Stopped(DuplicateCategory(info.category))
        else Scanning(selected + {info.category}, parts + [info.part], total + info.priceCents)
  }

  /** The loop state after processing `codes` in order, starting from nothing selected. */
  function ScanCodes(catalog: map<string, Component>, codes: seq<string>): Scan
    decreases |codes|
  {
    if codes == [] then Scanning({}, [], 0)
    else Step(catalog, ScanCodes(catalog, codes[..|codes| - 1]), codes[|codes| - 1])
  }

  /** `generate_order_id`: the timestamp, the sorted codes joined, then the random number. */
  function OrderId(timestamp: nat, sortedCodes: seq<string>, randomNumber: nat): (id: string)
    ensures |id| == |DecimalString(timestamp)| + |Concat(sortedCodes)| + |DecimalString(randomNumber)|
    ensures forall i :: 0 <= i < |DecimalString(timestamp)| ==> IsDigit(id[i])
    ensures id[|DecimalString(timestamp)|..|id| - |DecimalString(randomNumber)|] == Concat(sortedCodes)
    ensures forall i :: |id| - |DecimalString(randomNumber)| <= i < |id| ==> IsDigit(id[i])
  {
    var t, c, d := DecimalString(timestamp), Concat(sortedCodes), DecimalString(randomNumber);
    assert (t + c + d)[|t|..|t| + |c|] == c;
    t + c + d
  }

  /**
   `''.join(codes)`. When every code is a single letter, as every code of the
   shipped catalog is, the result has one letter per code, in order.
   */
  function Concat(codes: seq<string>): (r: string)
    ensures (forall i :: 0 <= i < |codes| ==> |codes[i]| == 1) ==>
      |r| == |codes| && forall i :: 0 <= i < |codes| ==> r[i] == codes[i][0]
  {
    if codes == [] then "" else codes[0] + Concat(codes[1..])
  }

  /** The codes the handler works on: a missing field defaults to the empty list. */
  function CodesOf(field: ComponentsField): seq<string>
  {
    match field
    case CodeList(codes) => codes
    case _ => []
  }

  /**
   The handler's answer for a request, with `timestamp` standing for
   `int(time.time())` and `randomNumber` for `random.randint(1000, 9999)`.
   */
  function OrderOutcome(catalog: map<string, Component>, required: set<string>,
                        field: ComponentsField, timestamp: nat, randomNumber: nat): OrderResult
  {
    if field.NotAList? || |CodesOf(field)| == 0 then InvalidShape
    else
      var sorted := SortCodes(CodesOf(field));
      Conclude(required, ScanCodes(catalog, sorted), OrderId(timestamp, sorted, randomNumber))
  }

  /** After the loop: its error, the category check, or the finished order under `orderId`. */
  function Conclude(required: set<string>, st: Scan, orderId: string): OrderResult
  {
    match st
    case Stopped(error) => error
    case Scanning(selected, parts, total) =>
      if selected != required then MissingCategories else Ok(orderId, total, parts)
  }

  /** Once the loop has stopped, the codes after that point are never looked at. */
  lemma {:induction false} ScanStopsAtFailure(catalog: map<string, Component>, p: seq<string>, t: seq<string>)
    requires ScanCodes(catalog, p).Stopped?
    ensures ScanCodes(catalog, p + t) == ScanCodes(catalog, p)
    decreases |t|
  {
    if t == [] {
      assert p + t == p;
    } else {
      var u := t[..|t| - 1];
      assert (p + t)[..|p + t| - 1] == p + u;
      ScanStopsAtFailure(catalog, p, u);
    }
  }

  /** A loop that stops at index `k` answers what the whole scan answers. */
  lemma StopEarly(catalog: map<string, Component>, s: seq<string>, k: nat)
    requires k < |s| && ScanCodes(catalog, s[..k + 1]).Stopped?
    ensures ScanCodes(catalog, s) == ScanCodes(catalog, s[..k + 1])
  {
    assert s == s[..k + 1] + s[k + 1..];
    ScanStopsAtFailure(catalog, s[..k + 1], s[k + 1..]);
  }

  /** `create_order`, step by step as the handler runs it. */
  method CreateOrder(catalog: map<string, Component>, required: set<string>,
                     field: ComponentsField, timestamp: nat, randomNumber: nat)
    returns (r: OrderResult)
    ensures r == OrderOutcome(catalog, required, field, timestamp, randomNumber)
  {
    if field.NotAList? {
      return InvalidShape;
    }
    var codes := CodesOf(field);
    if |codes| == 0 {
      return InvalidShape;
    }
    var components := new string[|codes|](i requires 0 <= i < |codes| => codes[i]);
    assert components[..] == codes;
    SortInPlace(components);
    var sorted := components[..];

    var scan := ProcessCodes(catalog, sorted);
    match scan
    case Stopped(error) =>
      return error;
    case Scanning(selectedCategories, orderParts, totalPrice) =>
      if selectedCategories != required {
        return MissingCategories;
      }
      r := Ok(OrderId(timestamp, sorted, randomNumber), totalPrice, orderParts);
  }

  /**
   The handler's `for` loop over the sorted codes: collects categories, part
   names and the running total, and returns at the first unknown code or
   repeated category.
   */
  method ProcessCodes(catalog: map<string, Component>, sorted: seq<string>) returns (st: Scan)
    ensures st == ScanCodes(catalog, sorted)
  {
    var orderParts: seq<string> := [];
    var totalPrice: nat := 0;
    var selectedCategories: set<string> := {};
    for i := 0 to |sorted|
      invariant ScanCodes(catalog, sorted[..i]) == Scanning(selectedCategories, orderParts, totalPrice)
    {
      var code := sorted[i];
      assert sorted[..i + 1][..i] == sorted[..i];
      if code !in catalog {
        StopEarly(catalog, sorted, i);
        return Stopped(UnknownComponent(code));
      }
      var info := catalog[code];
      if info.category in selectedCategories {
        StopEarly(catalog, sorted, i);
        return Stopped(DuplicateCategory(info.category));
      }
      selectedCategories := selectedCategories + {info.category};
      orderParts := orderParts + [info.part];
      totalPrice := totalPrice + info.priceCents;
    }
    assert sorted == sorted[..|sorted|];
    st := Scanning(selectedCategories, orderParts, totalPrice);
  }
}
