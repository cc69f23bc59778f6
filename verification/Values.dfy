/** Values at the module boundary: immutable trees, their nesting height and their heap charge. */
module Values {
  import opened Wrappers
  import opened OrderedMap

  type i64 = x: int | -0x8000_0000_0000_0000 <= x < 0x8000_0000_0000_0000
  type byte = x: int | 0 <= x < 256

  const USIZE_MAX: nat := 0xFFFF_FFFF_FFFF_FFFF
  const MAX_VALUE_DEPTH: nat := 64

  // Logical sizes on a 64-bit host; nothing below depends on these numbers.
  const VALUE_SIZE: nat := 16
  const HEAP_OBJECT_CHARGE: nat := 56
  const MAP_ENTRY_CHARGE: nat := 72

  datatype OwnedValue =
    | Null
    | Bool(flag: bool)
    | Integer(number: i64)
    | Text(text: string)
    | Bytes(bytes: seq<byte>)
    | List(items: seq<OwnedValue>)
    | Map(entries: OrdMap<OwnedValue>)

  /** What a type mismatch names. */
  datatype Kind =
    | NullKind | BoolKind | IntegerKind | TextKind | BytesKind | ListKind | MapKind
    | Scalar | IntegerOrBool | HeapKind

  datatype VmError =
    | AlreadyFinished
    | OperandStackUnderflow
    | UninitializedLocal
    | DivisionByZero
    | IntegerOverflow
    | TypeMismatch(expected: Kind, actual: Kind)
    | MissingInput
    | InputCountMismatch
    | MissingKey
    | IndexOutOfBounds
    | ValueDepthLimit
    | HeapLimit
    | OperandStackLimit
    | CallFrameLimit
    | LiveSlotLimit
    | StepLimit
    | ImportDenied
    | ImportPending
    | NoPendingImport

  /** The number of bytes of a text in UTF-8. */
  function Utf8Len(s: string): nat {
    if s == [] then 0
    else var c := s[|s| - 1] as int;
         Utf8Len(s[..|s| - 1]) +
         (if c < 0x80 then 1 else if c < 0x800 then 2 else if c < 0x1_0000 then 3 else 4)
  }

  lemma {:induction false} AsciiLen(s: string)
    ensures |s| <= Utf8Len(s)
    ensures (forall i :: 0 <= i < |s| ==> s[i] as int < 0x80) ==> Utf8Len(s) == |s|
  {
    if s != [] { AsciiLen(s[..|s| - 1]); }
  }

  /** 1 to 128 letters, digits and the marks given. */
  predicate Spelled(id: string, marks: string) {
    1 <= |id| <= 128 && forall c :: c in id ==> LetterOrDigit(c) || c in marks
  }

  predicate LetterOrDigit(c: char) {
    var n := c as int;
    48 <= n <= 57 || 65 <= n <= 90 || 97 <= n <= 122
  }

  /** True nesting height: scalars and empty collections have height 0. */
  ghost function Height(v: OwnedValue): nat
    decreases v
  {
    match v
    case List(items) => ItemsHeight(items)
    case Map(entries) => ItemsHeight(entries.vals)
    case _ => 0
  }

  ghost function ItemsHeight(items: seq<OwnedValue>): nat
    decreases items
  {
    if items == [] then 0
    else Max(ItemsHeight(items[..|items| - 1]), Height(items[|items| - 1]) + 1)
  }

  function Max(a: nat, b: nat): nat {
    if a < b then b else a
  }

  function KeysCharge(keys: seq<string>): nat {
    if keys == [] then 0
    else KeysCharge(keys[..|keys| - 1]) + MAP_ENTRY_CHARGE + Utf8Len(keys[|keys| - 1])
  }

  /** Structural cost of a whole tree. */
  ghost function Charge(v: OwnedValue): nat
    decreases v
  {
    match v
    case Text(text) => HEAP_OBJECT_CHARGE + Utf8Len(text)
    case Bytes(bytes) => HEAP_OBJECT_CHARGE + |bytes|
    case List(items) => HEAP_OBJECT_CHARGE + |items| * VALUE_SIZE + ItemsCharge(items)
    case Map(entries) => HEAP_OBJECT_CHARGE + KeysCharge(entries.keys) + ItemsCharge(entries.vals)
    case _ => 0
  }

  ghost function ItemsCharge(items: seq<OwnedValue>): nat
    decreases items
  {
    if items == [] then 0
    else ItemsCharge(items[..|items| - 1]) + Charge(items[|items| - 1])
  }

  /** Cost and height of a prefix grow item by item. */
  lemma {:induction false} PrefixBounds(items: seq<OwnedValue>, i: nat)
    requires i < |items|
    ensures ItemsCharge(items[..i + 1]) == ItemsCharge(items[..i]) + Charge(items[i]) <= ItemsCharge(items)
    ensures ItemsHeight(items[..i + 1]) == Max(ItemsHeight(items[..i]), Height(items[i]) + 1) <= ItemsHeight(items)
  {
    var n := |items| - 1;
    assert items[..i + 1][..i] == items[..i];
    if i == n {
      assert items[..i + 1] == items;
    } else {
      PrefixBounds(items[..n], i);
      assert items[..n][..i + 1] == items[..i + 1] && items[..n][..i] == items[..i];
    }
  }

  /** `checked_add` on the host's address width. */
  function CheckedAdd(a: nat, b: nat): Result<nat, VmError> {
    if a + b > USIZE_MAX then Err(HeapLimit) else Ok(a + b)
  }

  /** The charge of a tree, walked from the left, or the first limit the walk meets. */
  function ValueCharge(v: OwnedValue, depth: nat): Result<nat, VmError>
    decreases v
  {
    if depth > MAX_VALUE_DEPTH then Err(ValueDepthLimit)
    else match v
      case Text(text) => CheckedAdd(HEAP_OBJECT_CHARGE, Utf8Len(text))
      case Bytes(bytes) => CheckedAdd(HEAP_OBJECT_CHARGE, |bytes|)
      case List(items) =>
        if |items| * VALUE_SIZE > USIZE_MAX then Err(HeapLimit)
        else
          var base := CheckedAdd(HEAP_OBJECT_CHARGE, |items| * VALUE_SIZE);
          if base.Err? then base else ListItemsCharge(items, base.value, depth + 1)
      case Map(entries) => MapItemsCharge(entries.keys, entries.vals, depth + 1)
      case _ => Ok(0)
  }

  /** Adds the charges of the items in order to `total`. */
  function ListItemsCharge(items: seq<OwnedValue>, total: nat, depth: nat): Result<nat, VmError>
    decreases items
  {
    if items == [] then Ok(total)
    else
      var front := ListItemsCharge(items[..|items| - 1], total, depth);
      if front.Err? then front
      else
        var last := ValueCharge(items[|items| - 1], depth);
        if last.Err? then last else CheckedAdd(front.value, last.value)
  }

  function MapItemsCharge(keys: seq<string>, items: seq<OwnedValue>, depth: nat): Result<nat, VmError>
    requires |keys| == |items|
    decreases items
  {
    if items == [] then Ok(HEAP_OBJECT_CHARGE)
    else
      var front := MapItemsCharge(keys[..|keys| - 1], items[..|items| - 1], depth);
      if front.Err? then front
      else
        var entry := CheckedAdd(front.value, MAP_ENTRY_CHARGE);
        if entry.Err? then entry
        else
          var keyed := CheckedAdd(entry.value, Utf8Len(keys[|keys| - 1]));
          if keyed.Err? then keyed
          else
            var last := ValueCharge(items[|items| - 1], depth);
            if last.Err? then last else CheckedAdd(keyed.value, last.value)
  }

  /** The checked walk succeeds exactly on trees that fit the depth limit and the address width, and then it
      computes the structural cost; it blames the depth or the size only when that is at fault. */
  lemma {:induction false} ValueChargeExact(v: OwnedValue, depth: nat)
    ensures var r := ValueCharge(v, depth);
      && (r.Ok? <==> depth + Height(v) <= MAX_VALUE_DEPTH && Charge(v) <= USIZE_MAX)
      && (r.Ok? ==> r.value == Charge(v))
      && (r.Err? ==> r.error == HeapLimit || (r.error == ValueDepthLimit && depth + Height(v) > MAX_VALUE_DEPTH))
      && (r == Err(HeapLimit) ==> Charge(v) > USIZE_MAX)
    decreases v
  {
    match v
    case List(items) =>
      if depth <= MAX_VALUE_DEPTH && HEAP_OBJECT_CHARGE + |items| * VALUE_SIZE <= USIZE_MAX {
        ListItemsExact(items, HEAP_OBJECT_CHARGE + |items| * VALUE_SIZE, depth + 1);
      }
    case Map(entries) =>
      if depth <= MAX_VALUE_DEPTH { MapItemsExact(entries.keys, entries.vals, depth + 1); }
    case _ =>
  }

  lemma {:induction false} ListItemsExact(items: seq<OwnedValue>, total: nat, depth: nat)
    requires 0 < depth <= MAX_VALUE_DEPTH + 1 && total <= USIZE_MAX
    ensures var r := ListItemsCharge(items, total, depth);
      && (r.Ok? <==> depth - 1 + ItemsHeight(items) <= MAX_VALUE_DEPTH && total + ItemsCharge(items) <= USIZE_MAX)
      && (r.Ok? ==> r.value == total + ItemsCharge(items))
      && (r.Err? ==> r.error == HeapLimit || (r.error == ValueDepthLimit && depth - 1 + ItemsHeight(items) > MAX_VALUE_DEPTH))
      && (r == Err(HeapLimit) ==> total + ItemsCharge(items) > USIZE_MAX)
    decreases items
  {
    if items != [] {
      ListItemsExact(items[..|items| - 1], total, depth);
      ValueChargeExact(items[|items| - 1], depth);
    }
  }

  lemma {:induction false} MapItemsExact(keys: seq<string>, items: seq<OwnedValue>, depth: nat)
    requires |keys| == |items| && 0 < depth <= MAX_VALUE_DEPTH + 1
    ensures var r := MapItemsCharge(keys, items, depth);
      && (r.Ok? <==> depth - 1 + ItemsHeight(items) <= MAX_VALUE_DEPTH &&
                     HEAP_OBJECT_CHARGE + KeysCharge(keys) + ItemsCharge(items) <= USIZE_MAX)
      && (r.Ok? ==> r.value == HEAP_OBJECT_CHARGE + KeysCharge(keys) + ItemsCharge(items))
      && (r.Err? ==> r.error == HeapLimit || (r.error == ValueDepthLimit && depth - 1 + ItemsHeight(items) > MAX_VALUE_DEPTH))
      && (r == Err(HeapLimit) ==> HEAP_OBJECT_CHARGE + KeysCharge(keys) + ItemsCharge(items) > USIZE_MAX)
    decreases items
  {
    if items != [] {
      MapItemsExact(keys[..|keys| - 1], items[..|items| - 1], depth);
      ValueChargeExact(items[|items| - 1], depth);
    }
  }

  // ----- integer division -----

  /** Division that truncates toward zero. */
  function TruncatedDiv(a: int, b: int): int
    requires b != 0
  {
    if a >= 0 then a / b else -((-a) / b)
  }

  /** The remainder is smaller than the divisor and has the sign of the dividend. */
  ghost predicate IsQuotient(a: int, b: int, q: int) {
    var rem := a - q * b;
    && -(if b < 0 then -b else b) < rem < (if b < 0 then -b else b)
    && (a >= 0 ==> rem >= 0) && (a <= 0 ==> rem <= 0)
  }

  /** Division by anything but zero has exactly one quotient, and it is the truncated one. */
  lemma QuotientExact(a: int, b: int, q: int)
    ensures IsQuotient(a, b, q) <==> b != 0 && q == TruncatedDiv(a, b)
  {
    if b != 0 {
      TruncatedDivRemainder(a, b);
      if IsQuotient(a, b, q) { SameQuotient(a, b, q, TruncatedDiv(a, b)); }
    }
  }

  lemma SameQuotient(a: int, b: int, p: int, q: int)
    requires b != 0 && IsQuotient(a, b, p) && IsQuotient(a, b, q)
    ensures p == q
  {
    assert (p - q) * b == (a - q * b) - (a - p * b);
    if p != q { NotSmaller(p - q, b); }
  }

  lemma NotSmaller(d: int, b: int)
    requires d != 0
    ensures d * b >= (if b < 0 then -b else b) || d * b <= -(if b < 0 then -b else b)
  {
  }

  /** The quotient is the one whose remainder is smaller than the divisor and has the sign of the dividend. */
  lemma TruncatedDivRemainder(a: int, b: int)
    requires b != 0
    ensures IsQuotient(a, b, TruncatedDiv(a, b))
  {
    var q := TruncatedDiv(a, b);
    if a >= 0 {
      assert a == b * (a / b) + a % b;
      assert q * b == b * (a / b);
    } else {
      assert -a == b * ((-a) / b) + (-a) % b;
      assert q * b == -(b * ((-a) / b));
    }
  }
}
