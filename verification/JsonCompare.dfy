/** Comparing and duplicating values. */
module JsonCompare {
  import opened Bytes
  import opened JsonNumber
  import opened JsonValue

  // ---- Keys ----

  function ToLower(b: byte): byte {
    if 65 <= b <= 90 then b + 32 else b
  }

  function Fold(s: seq<byte>): (r: seq<byte>)
    ensures |r| == |s| && forall i | 0 <= i < |s| :: r[i] == ToLower(s[i])
  {
    seq(|s|, i requires 0 <= i < |s| => ToLower(s[i]))
  }

  /** What a key is looked up by. */
  function Name(key: seq<byte>, caseSensitive: bool): seq<byte> {
    if caseSensitive then key else Fold(key)
  }

  predicate SameKey(a: seq<byte>, b: seq<byte>, caseSensitive: bool) {
    Name(a, caseSensitive) == Name(b, caseSensitive)
  }

  /** Compare character by character, both strings being read up to the zero behind them. */
  method CompareKeys(a: seq<byte>, b: seq<byte>, caseSensitive: bool) returns (same: bool)
    requires 0 !in a && 0 !in b
    ensures same == SameKey(a, b, caseSensitive)
  {
    var i := 0;
    while i < |a| && i < |b| && (if caseSensitive then a[i] == b[i] else ToLower(a[i]) == ToLower(b[i]))
      invariant i <= |a| && i <= |b|
      invariant forall k | 0 <= k < i :: if caseSensitive then a[k] == b[k] else ToLower(a[k]) == ToLower(b[k])
    {
      i := i + 1;
    }
    same := i == |a| && i == |b|;
    if !same && |a| == |b| {
      assert Name(a, caseSensitive)[i] != Name(b, caseSensitive)[i];
    }
  }

  // ---- Sizes, for termination ----

  function Size(v: Json): nat {
    match v
    case Array(elements) => 1 + ElementsSize(elements)
    case Object(members) => 1 + MembersSize(members)
    case _ => 0
  }

  function ElementsSize(es: Elements): nat {
    match es
    case NoElement => 0
    case Element(value, next) => 1 + Size(value) + ElementsSize(next)
  }

  function MembersSize(ms: Members): nat {
    match ms
    case NoMember => 0
    case Member(_, value, next) => 1 + Size(value) + MembersSize(next)
  }

  /** The value of the first member whose key matches. */
  function Lookup(ms: Members, key: seq<byte>, caseSensitive: bool): (r: Option<Json>)
    ensures r.Some? ==> Size(r.value) < MembersSize(ms)
  {
    match ms
    case NoMember => None
    case Member(k, value, next) =>
      if SameKey(key, k, caseSensitive) then Some(value) else Lookup(next, key, caseSensitive)
  }

  method GetObjectItem(ms: Members, key: seq<byte>, caseSensitive: bool) returns (r: Option<Json>)
    requires 0 !in key && CStringMembers(ms)
    ensures r == Lookup(ms, key, caseSensitive)
  {
    var current := ms;
    while current.Member?
      invariant Lookup(current, key, caseSensitive) == Lookup(ms, key, caseSensitive) && CStringMembers(current)
      decreases current
    {
      var same := CompareKeys(key, current.key, caseSensitive);
      if same {
        return Some(current.value);
      }
      current := current.next;
    }
    r := None;
  }

  // ---- Comparison ----

  const DBL_EPSILON: real := 1.0 / 4503599627370496.0

  function Abs(x: real): real {
    if x < 0.0 then -x else x
  }

  predicate CompareDouble(a: real, b: real) {
    var maxVal := if Abs(a) > Abs(b) then Abs(a) else Abs(b);
    Abs(a - b) <= maxVal * DBL_EPSILON
  }

  predicate IsNumber(v: Json) {
    v.Number? || v.Infinite? || v.NotANumber?
  }

  /**
   The test on two numbers in floating point. With an infinity on one side the tolerance is infinite, and so is the
   difference, or it is undefined for two equal infinities; no comparison with what is undefined holds.
   */
  predicate CompareNumbers(a: Json, b: Json)
    requires IsNumber(a) && IsNumber(b)
  {
    match (a, b)
    case (Number(x), Number(y)) => CompareDouble(x, y)
    case (Number(_), Infinite(_)) => true
    case (Infinite(_), Number(_)) => true
    case (Infinite(m), Infinite(n)) => m != n
    case _ => false
  }

  predicate Compare(a: Json, b: Json, caseSensitive: bool)
    decreases Size(a) + Size(b), 1
  {
    if IsNumber(a) && IsNumber(b) then CompareNumbers(a, b)
    else
    match (a, b)
    case (Null, Null) => true
    case (False, False) => true
    case (True, True) => true
    case (String(s), String(t)) => s == t
    case (Raw(s), Raw(t)) => s == t
    case (Array(es), Array(fs)) => CompareElements(es, fs, caseSensitive)
    case (Object(ms), Object(ns)) => EachIn(ms, ns, caseSensitive) && EachIn(ns, ms, caseSensitive)
    case _ => false
  }

  predicate CompareElements(es: Elements, fs: Elements, caseSensitive: bool)
    decreases ElementsSize(es) + ElementsSize(fs), 0
  {
    match (es, fs)
    case (NoElement, NoElement) => true
    case (Element(v, next), Element(w, next')) =>
      Compare(v, w, caseSensitive) && CompareElements(next, next', caseSensitive)
    case _ => false
  }

  /** Every member of `ms` compares equal to the member of `ns` found under its key. */
  predicate EachIn(ms: Members, ns: Members, caseSensitive: bool)
    decreases MembersSize(ms) + MembersSize(ns), 0
  {
    match ms
    case NoMember => true
    case Member(key, value, next) =>
      var found := Lookup(ns, key, caseSensitive);
      found.Some? && Compare(value, found.value, caseSensitive) && EachIn(next, ns, caseSensitive)
  }

  /** Comparison is symmetric on all values. */
  lemma {:induction false} CompareSymmetric(a: Json, b: Json, caseSensitive: bool)
    ensures Compare(a, b, caseSensitive) == Compare(b, a, caseSensitive)
    decreases a
  {
    match (a, b)
    case (Array(es), Array(fs)) => ElementsSymmetric(es, fs, caseSensitive);
    case _ =>
  }

  lemma {:induction false} ElementsSymmetric(es: Elements, fs: Elements, caseSensitive: bool)
    ensures CompareElements(es, fs, caseSensitive) == CompareElements(fs, es, caseSensitive)
    decreases es
  {
    if es.Element? && fs.Element? {
      CompareSymmetric(es.value, fs.value, caseSensitive);
      ElementsSymmetric(es.next, fs.next, caseSensitive);
    }
  }

  // ---- Values up to the order of members ----

  /** A value in which an object is a map from names. */
  datatype Abstract =
    | AWord(v: Json)
    | AList(elements: seq<Abstract>)
    | AMap(members: map<seq<byte>, Abstract>)

  function Abstraction(v: Json, caseSensitive: bool): Abstract {
    match v
    case Array(es) => AList(AbstractElements(es, caseSensitive))
    case Object(ms) => AMap(AbstractMembers(ms, caseSensitive))
    case _ => AWord(v)
  }

  function AbstractElements(es: Elements, caseSensitive: bool): seq<Abstract> {
    match es
    case NoElement => []
    case Element(v, next) => [Abstraction(v, caseSensitive)] + AbstractElements(next, caseSensitive)
  }

  function AbstractMembers(ms: Members, caseSensitive: bool): map<seq<byte>, Abstract> {
    match ms
    case NoMember => map[]
    case Member(key, v, next) =>
      AbstractMembers(next, caseSensitive)[Name(key, caseSensitive) := Abstraction(v, caseSensitive)]
  }

  /** In every object, members with the same name have the same meaning: that of the first of them. */
  predicate Coherent(v: Json, caseSensitive: bool) {
    match v
    case Array(es) => CoherentElements(es, caseSensitive)
    case Object(ms) => Matches(ms, AbstractMembers(ms, caseSensitive), caseSensitive)
    case _ => true
  }

  predicate CoherentElements(es: Elements, caseSensitive: bool) {
    es.Element? ==> Coherent(es.value, caseSensitive) && CoherentElements(es.next, caseSensitive)
  }

  /** Every member is coherent and has the meaning that `m` gives to its name. */
  predicate Matches(ms: Members, m: map<seq<byte>, Abstract>, caseSensitive: bool) {
    ms.Member? ==>
      Coherent(ms.value, caseSensitive) &&
      Name(ms.key, caseSensitive) in m && m[Name(ms.key, caseSensitive)] == Abstraction(ms.value, caseSensitive) &&
      Matches(ms.next, m, caseSensitive)
  }

  /** On integers of 32 bits the tolerance is less than one. */
  lemma Int32Exact(a: real, b: real)
    requires IsInt32(a) && IsInt32(b)
    ensures CompareDouble(a, b) <==> a == b
  {
    var m, n := ValueInt(a), ValueInt(b);
    var maxVal := if Abs(a) > Abs(b) then Abs(a) else Abs(b);
    assert 0.0 <= maxVal <= 2147483648.0;
    assert maxVal * DBL_EPSILON < 1.0;
    if m != n {
      assert a - b == (m - n) as real;
      assert Abs(a - b) >= 1.0;
    }
  }

  lemma {:induction false} LookupAbstract(ms: Members, key: seq<byte>, caseSensitive: bool)
    ensures var found, abs := Lookup(ms, key, caseSensitive), AbstractMembers(ms, caseSensitive);
      (found.Some? <==> Name(key, caseSensitive) in abs) &&
      (found.Some? ==> abs[Name(key, caseSensitive)] == Abstraction(found.value, caseSensitive))
  {
    hide Name;
    if ms.Member? {
      LookupAbstract(ms.next, key, caseSensitive);
    }
  }

  lemma {:induction false} LookupInt32(ms: Members, key: seq<byte>, caseSensitive: bool)
    requires Int32Members(ms)
    ensures var found := Lookup(ms, key, caseSensitive); found.Some? ==> Int32Numbers(found.value)
  {
    hide SameKey;
    if ms.Member? {
      LookupInt32(ms.next, key, caseSensitive);
    }
  }

  lemma {:induction false} LookupCoherent(
    ms: Members, m: map<seq<byte>, Abstract>, key: seq<byte>, caseSensitive: bool)
    requires Matches(ms, m, caseSensitive)
    ensures var found := Lookup(ms, key, caseSensitive); found.Some? ==> Coherent(found.value, caseSensitive)
  {
    hide SameKey;
    if ms.Member? {
      LookupCoherent(ms.next, m, key, caseSensitive);
    }
  }

  ghost predicate Submap(a: map<seq<byte>, Abstract>, b: map<seq<byte>, Abstract>) {
    forall k | k in a :: k in b && a[k] == b[k]
  }

  lemma {:induction false} MatchesIsSubmap(ms: Members, m: map<seq<byte>, Abstract>, caseSensitive: bool)
    requires Matches(ms, m, caseSensitive)
    ensures Submap(AbstractMembers(ms, caseSensitive), m)
  {
    hide Name, Abstraction, Coherent;
    if ms.Member? {
      MatchesIsSubmap(ms.next, m, caseSensitive);
    }
  }

  /**
   For values whose numbers are integers of 32 bits: two values compare equal if and only if both are coherent and they
   are equal up to the order and the repetition of members.
   */
  lemma {:induction false} CompareIsEquality(a: Json, b: Json, caseSensitive: bool)
    requires Int32Numbers(a) && Int32Numbers(b)
    ensures Compare(a, b, caseSensitive) <==>
      (Coherent(a, caseSensitive) && Coherent(b, caseSensitive) &&
       Abstraction(a, caseSensitive) == Abstraction(b, caseSensitive))
    decreases Size(a) + Size(b), 1
  {
    match (a, b)
    case (Number(x), Number(y)) => Int32Exact(x, y);
    case (Array(es), Array(fs)) => ElementsEquality(es, fs, caseSensitive);
    case (Object(ms), Object(ns)) =>
      EachInMatches(ms, ns, caseSensitive);
      EachInMatches(ns, ms, caseSensitive);
      hide EachIn, AbstractMembers, Matches;
      if Matches(ms, AbstractMembers(ns, caseSensitive), caseSensitive) &&
         Matches(ns, AbstractMembers(ms, caseSensitive), caseSensitive) {
        BothMatch(ms, ns, caseSensitive);
      }
    case _ =>
  }

  lemma BothMatch(ms: Members, ns: Members, caseSensitive: bool)
    requires Matches(ms, AbstractMembers(ns, caseSensitive), caseSensitive)
    requires Matches(ns, AbstractMembers(ms, caseSensitive), caseSensitive)
    ensures AbstractMembers(ms, caseSensitive) == AbstractMembers(ns, caseSensitive)
  {
    MatchesIsSubmap(ms, AbstractMembers(ns, caseSensitive), caseSensitive);
    MatchesIsSubmap(ns, AbstractMembers(ms, caseSensitive), caseSensitive);
  }

  lemma {:induction false} ElementsEquality(es: Elements, fs: Elements, caseSensitive: bool)
    requires Int32Elements(es) && Int32Elements(fs)
    ensures CompareElements(es, fs, caseSensitive) <==>
      (CoherentElements(es, caseSensitive) && CoherentElements(fs, caseSensitive) &&
       AbstractElements(es, caseSensitive) == AbstractElements(fs, caseSensitive))
    decreases ElementsSize(es) + ElementsSize(fs), 0
  {
    if es.Element? && fs.Element? {
      CompareIsEquality(es.value, fs.value, caseSensitive);
      ElementsEquality(es.next, fs.next, caseSensitive);
      hide Compare, Abstraction, Coherent;
      ConsEqual(Abstraction(es.value, caseSensitive), AbstractElements(es.next, caseSensitive),
        Abstraction(fs.value, caseSensitive), AbstractElements(fs.next, caseSensitive));
    }
  }

  lemma ConsEqual(x: Abstract, s: seq<Abstract>, y: Abstract, t: seq<Abstract>)
    ensures [x] + s == [y] + t <==> x == y && s == t
  {
    if [x] + s == [y] + t {
      assert x == ([x] + s)[0] && y == ([y] + t)[0];
      assert s == ([x] + s)[1..] && t == ([y] + t)[1..];
    }
  }

  lemma {:induction false} EachInMatches(ms: Members, ns: Members, caseSensitive: bool)
    requires Int32Members(ms) && Int32Members(ns)
    ensures EachIn(ms, ns, caseSensitive) ==> Matches(ms, AbstractMembers(ns, caseSensitive), caseSensitive)
    ensures Matches(ns, AbstractMembers(ns, caseSensitive), caseSensitive) ==>
      (EachIn(ms, ns, caseSensitive) <==> Matches(ms, AbstractMembers(ns, caseSensitive), caseSensitive))
    decreases MembersSize(ms) + MembersSize(ns), 0
  {
    hide Name, Lookup, Compare, Abstraction, Coherent, AbstractMembers;
    if ms.Member? {
      var found := Lookup(ns, ms.key, caseSensitive);
      LookupAbstract(ns, ms.key, caseSensitive);
      EachInMatches(ms.next, ns, caseSensitive);
      if found.Some? {
        LookupInt32(ns, ms.key, caseSensitive);
        CompareIsEquality(ms.value, found.value, caseSensitive);
        if Matches(ns, AbstractMembers(ns, caseSensitive), caseSensitive) {
          LookupCoherent(ns, AbstractMembers(ns, caseSensitive), ms.key, caseSensitive);
        }
      }
    }
  }

  /**
   No number outside an object is infinite or undefined. In every object, a member whose value is not that of the first
   member of its name compares equal to that one; the others agree in themselves.
   */
  predicate RepeatsAgree(v: Json, caseSensitive: bool) {
    match v
    case Infinite(_) => false
    case NotANumber => false
    case Array(es) => RepeatsAgreeInElements(es, caseSensitive)
    case Object(ms) => RepeatsAgreeIn(ms, ms, caseSensitive)
    case _ => true
  }

  predicate RepeatsAgreeInElements(es: Elements, caseSensitive: bool) {
    es.Element? ==> RepeatsAgree(es.value, caseSensitive) && RepeatsAgreeInElements(es.next, caseSensitive)
  }

  predicate RepeatsAgreeIn(ms: Members, all: Members, caseSensitive: bool) {
    ms.Member? ==>
      (var first := Lookup(all, ms.key, caseSensitive);
       if first == Some(ms.value) then RepeatsAgree(ms.value, caseSensitive)
       else first.Some? && Compare(ms.value, first.value, caseSensitive)) &&
      RepeatsAgreeIn(ms.next, all, caseSensitive)
  }

  /** Whatever its numbers are, a value compares equal to itself exactly if repeated members agree with the first. */
  lemma {:induction false} CompareItselfIff(v: Json, caseSensitive: bool)
    ensures Compare(v, v, caseSensitive) <==> RepeatsAgree(v, caseSensitive)
    decreases v
  {
    match v
    case Array(es) => ElementsThemselvesIff(es, caseSensitive);
    case Object(ms) => MembersThemselvesIff(ms, ms, caseSensitive);
    case _ =>
  }

  lemma {:induction false} ElementsThemselvesIff(es: Elements, caseSensitive: bool)
    ensures CompareElements(es, es, caseSensitive) <==> RepeatsAgreeInElements(es, caseSensitive)
    decreases es
  {
    if es.Element? {
      CompareItselfIff(es.value, caseSensitive);
      ElementsThemselvesIff(es.next, caseSensitive);
    }
  }

  lemma {:induction false} MembersThemselvesIff(ms: Members, all: Members, caseSensitive: bool)
    ensures EachIn(ms, all, caseSensitive) <==> RepeatsAgreeIn(ms, all, caseSensitive)
    decreases ms
  {
    if ms.Member? {
      CompareItselfIff(ms.value, caseSensitive);
      MembersThemselvesIff(ms.next, all, caseSensitive);
    }
  }

  /** For 32-bit integers: exactly if members of the same name have the same meaning. */
  lemma EqualToItselfIffCoherent(v: Json, caseSensitive: bool)
    requires Int32Numbers(v)
    ensures Compare(v, v, caseSensitive) <==> Coherent(v, caseSensitive)
  {
    CompareIsEquality(v, v, caseSensitive);
  }

  // ---- The loops of the comparison ----

  method CompareItems(a: Json, b: Json, caseSensitive: bool) returns (same: bool)
    requires CStrings(a) && CStrings(b)
    ensures same == Compare(a, b, caseSensitive)
    decreases Size(a) + Size(b)
  {
    if IsNumber(a) && IsNumber(b) {
      same := CompareNumbers(a, b);
      return;
    }
    match (a, b)
    case (Null, Null) => same := true;
    case (False, False) => same := true;
    case (True, True) => same := true;
    case (String(s), String(t)) => same := s == t;
    case (Raw(s), Raw(t)) => same := s == t;
    case (Array(es), Array(fs)) =>
      var e, f := es, fs;
      while e.Element? && f.Element?
        invariant CStringElements(e) && CStringElements(f)
        invariant ElementsSize(e) <= ElementsSize(es) && ElementsSize(f) <= ElementsSize(fs)
        invariant CompareElements(e, f, caseSensitive) == CompareElements(es, fs, caseSensitive)
        decreases e
      {
        var equal := CompareItems(e.value, f.value, caseSensitive);
        if !equal {
          return false;
        }
        e, f := e.next, f.next;
      }
      same := e == NoElement && f == NoElement;
    case (Object(ms), Object(ns)) =>
      same := CompareEach(ms, ns, caseSensitive);
      if same {
        same := CompareEach(ns, ms, caseSensitive);
      }
    case _ => same := false;
  }

  /** The comparison from outside: missing values are not equal to anything, and a value is equal to itself at once. */
  method CompareCall(a: Option<Json>, b: Option<Json>, identical: bool, caseSensitive: bool) returns (same: bool)
    requires (a.Some? ==> CStrings(a.value)) && (b.Some? ==> CStrings(b.value)) && (identical ==> a == b)
    ensures same <==> a.Some? && b.Some? && (identical || Compare(a.value, b.value, caseSensitive))
  {
    if a == None || b == None {
      return false;
    }
    if identical {
      return true;
    }
    same := CompareItems(a.value, b.value, caseSensitive);
  }

  /** Each member of the first object against the member the second one has under its key. */
  method CompareEach(ms: Members, ns: Members, caseSensitive: bool) returns (same: bool)
    requires CStringMembers(ms) && CStringMembers(ns)
    ensures same == EachIn(ms, ns, caseSensitive)
    decreases MembersSize(ms) + MembersSize(ns)
  {
    var current := ms;
    while current.Member?
      invariant CStringMembers(current) && MembersSize(current) <= MembersSize(ms)
      invariant EachIn(current, ns, caseSensitive) == EachIn(ms, ns, caseSensitive)
      decreases current
    {
      var found := GetObjectItem(ns, current.key, caseSensitive);
      if found == None {
        return false;
      }
      LookupCStrings(ns, current.key, caseSensitive);
      var equal := CompareItems(current.value, found.value, caseSensitive);
      if !equal {
        return false;
      }
      current := current.next;
    }
    same := true;
  }

  lemma {:induction false} LookupCStrings(ms: Members, key: seq<byte>, caseSensitive: bool)
    requires CStringMembers(ms)
    ensures var found := Lookup(ms, key, caseSensitive); found.Some? ==> CStrings(found.value)
  {
    hide SameKey;
    if ms.Member? {
      LookupCStrings(ms.next, key, caseSensitive);
    }
  }

  // ---- Duplicates ----

  const CIRCULAR_LIMIT := 10000

  /** A copy of an item and of all its children; it fails where children are nested too deeply. */
  function Duplicate(v: Json, depth: nat): Option<Json> {
    match v
    case Array(es) =>
      var copy := DuplicateElements(es, depth);
      if copy == None then None else Some(Array(copy.value))
    case Object(ms) =>
      var copy := DuplicateMembers(ms, depth);
      if copy == None then None else Some(Object(copy.value))
    case _ => Some(v)
  }

  function DuplicateElements(es: Elements, depth: nat): Option<Elements> {
    match es
    case NoElement => Some(NoElement)
    case Element(v, next) =>
      if depth >= CIRCULAR_LIMIT then None
      else
        var copy, rest := Duplicate(v, depth + 1), DuplicateElements(next, depth);
        if copy == None || rest == None then None else Some(Element(copy.value, rest.value))
  }

  function DuplicateMembers(ms: Members, depth: nat): Option<Members> {
    match ms
    case NoMember => Some(NoMember)
    case Member(key, v, next) =>
      if depth >= CIRCULAR_LIMIT then None
      else
        var copy, rest := Duplicate(v, depth + 1), DuplicateMembers(next, depth);
        if copy == None || rest == None then None else Some(Member(key, copy.value, rest.value))
  }

  /** How deep children are nested; an empty array or object has none. */
  function ChildDepth(v: Json): nat {
    match v
    case Array(es) => ElementsChildDepth(es)
    case Object(ms) => MembersChildDepth(ms)
    case _ => 0
  }

  function ElementsChildDepth(es: Elements): nat {
    match es
    case NoElement => 0
    case Element(v, next) => Max(1 + ChildDepth(v), ElementsChildDepth(next))
  }

  function MembersChildDepth(ms: Members): nat {
    match ms
    case NoMember => 0
    case Member(_, v, next) => Max(1 + ChildDepth(v), MembersChildDepth(next))
  }

  /** Duplicating gives the same value, and it fails exactly for values nested more than 10000 deep. */
  lemma {:induction false} DuplicateIsCopy(v: Json, depth: nat)
    ensures Duplicate(v, depth) ==
      if ChildDepth(v) == 0 || depth + ChildDepth(v) <= CIRCULAR_LIMIT then Some(v) else None
    decreases v
  {
    match v
    case Array(es) => ElementsCopy(es, depth);
    case Object(ms) => MembersCopy(ms, depth);
    case _ =>
  }

  lemma {:induction false} ElementsCopy(es: Elements, depth: nat)
    ensures DuplicateElements(es, depth) ==
      if ElementsChildDepth(es) == 0 || depth + ElementsChildDepth(es) <= CIRCULAR_LIMIT then Some(es) else None
    decreases es
  {
    if es.Element? {
      DuplicateIsCopy(es.value, depth + 1);
      ElementsCopy(es.next, depth);
    }
  }

  lemma {:induction false} MembersCopy(ms: Members, depth: nat)
    ensures DuplicateMembers(ms, depth) ==
      if MembersChildDepth(ms) == 0 || depth + MembersChildDepth(ms) <= CIRCULAR_LIMIT then Some(ms) else None
    decreases ms
  {
    if ms.Member? {
      DuplicateIsCopy(ms.value, depth + 1);
      MembersCopy(ms.next, depth);
    }
  }

  /** No object has two keys with the same name. */
  predicate Distinct(v: Json, caseSensitive: bool) {
    match v
    case Array(es) => DistinctElements(es, caseSensitive)
    case Object(ms) => DistinctMembers(ms, caseSensitive)
    case _ => true
  }

  predicate DistinctElements(es: Elements, caseSensitive: bool) {
    es.Element? ==> Distinct(es.value, caseSensitive) && DistinctElements(es.next, caseSensitive)
  }

  predicate DistinctMembers(ms: Members, caseSensitive: bool) {
    ms.Member? ==>
      Lookup(ms.next, ms.key, caseSensitive) == None &&
      Distinct(ms.value, caseSensitive) && DistinctMembers(ms.next, caseSensitive)
  }

  /** Looking up the keys of `ms` in `all` finds the values of `ms`. */
  predicate FoundIn(ms: Members, all: Members, caseSensitive: bool) {
    ms.Member? ==> Lookup(all, ms.key, caseSensitive) == Some(ms.value) && FoundIn(ms.next, all, caseSensitive)
  }

  lemma {:induction false} LookupSameName(ms: Members, a: seq<byte>, b: seq<byte>, caseSensitive: bool)
    requires SameKey(a, b, caseSensitive)
    ensures Lookup(ms, a, caseSensitive) == Lookup(ms, b, caseSensitive)
  {
    hide Name;
    if ms.Member? {
      LookupSameName(ms.next, a, b, caseSensitive);
    }
  }

  lemma {:induction false} FoundBehind(ms: Members, all: Members, key: seq<byte>, v: Json, caseSensitive: bool)
    requires FoundIn(ms, all, caseSensitive) && Lookup(all, key, caseSensitive) == None
    ensures FoundIn(ms, Member(key, v, all), caseSensitive)
  {
    hide Name;
    if ms.Member? {
      FoundBehind(ms.next, all, key, v, caseSensitive);
      if SameKey(ms.key, key, caseSensitive) {
        LookupSameName(all, ms.key, key, caseSensitive);
      }
    }
  }

  lemma {:induction false} EachFindsItself(ms: Members, caseSensitive: bool)
    requires DistinctMembers(ms, caseSensitive)
    ensures FoundIn(ms, ms, caseSensitive)
  {
    hide Name;
    if ms.Member? {
      EachFindsItself(ms.next, caseSensitive);
      FoundBehind(ms.next, ms.next, ms.key, ms.value, caseSensitive);
    }
  }

  /** A value whose objects have distinct keys compares equal to itself if and only if its numbers are finite. */
  lemma {:induction false} DistinctEqualToItselfIff(v: Json, caseSensitive: bool)
    requires Distinct(v, caseSensitive)
    ensures Compare(v, v, caseSensitive) <==> Finite(v)
    decreases v
  {
    match v
    case Array(es) => ElementsEqualToThemselvesIff(es, caseSensitive);
    case Object(ms) =>
      EachFindsItself(ms, caseSensitive);
      MembersEqualToThemselvesIff(ms, ms, caseSensitive);
    case _ =>
  }

  lemma {:induction false} ElementsEqualToThemselvesIff(es: Elements, caseSensitive: bool)
    requires DistinctElements(es, caseSensitive)
    ensures CompareElements(es, es, caseSensitive) <==> FiniteElements(es)
    decreases es
  {
    if es.Element? {
      DistinctEqualToItselfIff(es.value, caseSensitive);
      ElementsEqualToThemselvesIff(es.next, caseSensitive);
    }
  }

  lemma {:induction false} MembersEqualToThemselvesIff(ms: Members, all: Members, caseSensitive: bool)
    requires DistinctMembers(ms, caseSensitive) && FoundIn(ms, all, caseSensitive)
    ensures EachIn(ms, all, caseSensitive) <==> FiniteMembers(ms)
    decreases ms
  {
    if ms.Member? {
      DistinctEqualToItselfIff(ms.value, caseSensitive);
      MembersEqualToThemselvesIff(ms.next, all, caseSensitive);
    }
  }

  /** With distinct keys, a value compares equal to its duplicate, in either order, if and only if it is finite. */
  lemma CompareDuplicate(v: Json, copy: Json, caseSensitive: bool)
    requires Distinct(v, caseSensitive) && Duplicate(v, 0) == Some(copy)
    ensures Compare(v, copy, caseSensitive) == Compare(copy, v, caseSensitive) == Finite(v)
  {
    DuplicateIsCopy(v, 0);
    DistinctEqualToItselfIff(v, caseSensitive);
  }

  /** Exactly when a value compares equal to its duplicate; distinct keys are more than is needed. */
  lemma CompareDuplicateIff(v: Json, copy: Json, caseSensitive: bool)
    requires Duplicate(v, 0) == Some(copy)
    ensures Compare(v, copy, caseSensitive) == Compare(copy, v, caseSensitive) == RepeatsAgree(v, caseSensitive)
    ensures Int32Numbers(v) ==> (Compare(v, copy, caseSensitive) <==> Coherent(v, caseSensitive))
  {
    DuplicateIsCopy(v, 0);
    CompareItselfIff(v, caseSensitive);
    if Int32Numbers(v) {
      EqualToItselfIffCoherent(v, caseSensitive);
    }
  }

  predicate CoherentValues(ms: Members, caseSensitive: bool) {
    ms.Member? ==> Coherent(ms.value, caseSensitive) && CoherentValues(ms.next, caseSensitive)
  }

  lemma {:induction false} DistinctIsCoherent(v: Json, caseSensitive: bool)
    requires Distinct(v, caseSensitive)
    ensures Coherent(v, caseSensitive)
    decreases v
  {
    match v
    case Array(es) => DistinctElementsCoherent(es, caseSensitive);
    case Object(ms) =>
      EachFindsItself(ms, caseSensitive);
      DistinctMembersCoherent(ms, caseSensitive);
      FoundMatches(ms, ms, AbstractMembers(ms, caseSensitive), caseSensitive);
    case _ =>
  }

  lemma {:induction false} DistinctElementsCoherent(es: Elements, caseSensitive: bool)
    requires DistinctElements(es, caseSensitive)
    ensures CoherentElements(es, caseSensitive)
    decreases es
  {
    if es.Element? {
      DistinctIsCoherent(es.value, caseSensitive);
      DistinctElementsCoherent(es.next, caseSensitive);
    }
  }

  lemma {:induction false} DistinctMembersCoherent(ms: Members, caseSensitive: bool)
    requires DistinctMembers(ms, caseSensitive)
    ensures CoherentValues(ms, caseSensitive)
    decreases ms
  {
    if ms.Member? {
      DistinctIsCoherent(ms.value, caseSensitive);
      DistinctMembersCoherent(ms.next, caseSensitive);
    }
  }

  lemma {:induction false} FoundMatches(ms: Members, all: Members, m: map<seq<byte>, Abstract>, caseSensitive: bool)
    requires CoherentValues(ms, caseSensitive) && FoundIn(ms, all, caseSensitive)
    requires m == AbstractMembers(all, caseSensitive)
    ensures Matches(ms, m, caseSensitive)
  {
    if ms.Member? {
      hide Name;
      LookupAbstract(all, ms.key, caseSensitive);
      FoundMatches(ms.next, all, m, caseSensitive);
    }
  }

  /** With distinct keys, comparison is equality up to the order of members. */
  lemma CompareOfDistinctKeys(a: Json, b: Json, caseSensitive: bool)
    requires Int32Numbers(a) && Int32Numbers(b) && Distinct(a, caseSensitive) && Distinct(b, caseSensitive)
    ensures Compare(a, b, caseSensitive) <==> Abstraction(a, caseSensitive) == Abstraction(b, caseSensitive)
  {
    CompareIsEquality(a, b, caseSensitive);
    DistinctIsCoherent(a, caseSensitive);
    DistinctIsCoherent(b, caseSensitive);
  }

  /** Repeating a member does no harm, whatever its value: only what is said differently about one name does. */
  lemma RepeatedMemberEqualToItself(key: seq<byte>, v: Json, caseSensitive: bool)
    requires Coherent(v, caseSensitive)
    ensures Coherent(Object(Member(key, v, Member(key, v, NoMember))), caseSensitive)
  {
    hide Name, Abstraction, Coherent;
    var once := Member(key, v, NoMember);
    var ms := Member(key, v, once);
    var m := AbstractMembers(ms, caseSensitive);
    assert m[Name(key, caseSensitive)] == Abstraction(v, caseSensitive);
    assert Matches(once, m, caseSensitive);
    assert Matches(ms, m, caseSensitive);
    CoherentObject(ms, caseSensitive);
  }

  lemma CoherentObject(ms: Members, caseSensitive: bool)
    ensures Coherent(Object(ms), caseSensitive) == Matches(ms, AbstractMembers(ms, caseSensitive), caseSensitive)
  {
  }

  /** The smallest object that differs from itself: only the first member of a name is ever found. */
  lemma RepeatedKeyNotEqualToItself(key: seq<byte>, caseSensitive: bool)
    ensures var v := Object(Member(key, True, Member(key, False, NoMember)));
      Duplicate(v, 0) == Some(v) && !Compare(v, v, caseSensitive)
  {
    var tail := Member(key, False, NoMember);
    var ms := Member(key, True, tail);
    DuplicateIsCopy(Object(ms), 0);
    assert MembersChildDepth(NoMember) == 0 && ChildDepth(True) == 0 && ChildDepth(False) == 0;
    assert MembersChildDepth(tail) == Max(1 + ChildDepth(False), MembersChildDepth(NoMember)) == 1;
    assert MembersChildDepth(ms) == Max(1 + ChildDepth(True), MembersChildDepth(tail)) == 1;
    assert Lookup(ms, key, caseSensitive) == Some(True);
    assert !EachIn(tail, ms, caseSensitive);
    assert !EachIn(ms, ms, caseSensitive);
  }

  function Linked(copied: seq<Json>, rest: Option<Elements>): Option<Elements> {
    if rest == None then None else Some(Chain(copied, rest.value))
  }

  function LinkedMembers(copied: seq<Pair>, rest: Option<Members>): Option<Members> {
    if rest == None then None else Some(ChainMembers(copied, rest.value))
  }

  lemma LinkOne(copied: seq<Json>, es: Elements, depth: nat)
    requires es.Element?
    ensures var copy := Duplicate(es.value, depth + 1);
      Linked(copied, DuplicateElements(es, depth)) ==
        if depth >= CIRCULAR_LIMIT || copy == None then None
        else Linked(copied + [copy.value], DuplicateElements(es.next, depth))
  {
    var copy, rest := Duplicate(es.value, depth + 1), DuplicateElements(es.next, depth);
    if copy.Some? && rest.Some? {
      ChainOne(copied, copy.value, rest.value);
    }
    hide Duplicate, Chain;
  }

  lemma LinkOneMember(copied: seq<Pair>, ms: Members, depth: nat)
    requires ms.Member?
    ensures var copy := Duplicate(ms.value, depth + 1);
      LinkedMembers(copied, DuplicateMembers(ms, depth)) ==
        if depth >= CIRCULAR_LIMIT || copy == None then None
        else LinkedMembers(copied + [Pair(ms.key, copy.value)], DuplicateMembers(ms.next, depth))
  {
    var copy, rest := Duplicate(ms.value, depth + 1), DuplicateMembers(ms.next, depth);
    if copy.Some? && rest.Some? {
      ChainMembersOne(copied, Pair(ms.key, copy.value), rest.value);
    }
    hide Duplicate, ChainMembers;
  }

  /** The copy: the loop over the children, which are left out of a copy that is not recursive. */
  method DuplicateRec(v: Json, depth: nat, recurse: bool) returns (copy: Option<Json>)
    ensures recurse ==> copy == Duplicate(v, depth)
    ensures !recurse ==>
      copy == Some(if v.Array? then Array(NoElement) else if v.Object? then Object(NoMember) else v)
    decreases v
  {
    if !recurse {
      return Some(if v.Array? then Array(NoElement) else if v.Object? then Object(NoMember) else v);
    }
    match v
    case Array(es) =>
      var current, copied := es, [];
      while current.Element?
        invariant current == es || current < es
        invariant Linked(copied, DuplicateElements(current, depth)) == DuplicateElements(es, depth)
        decreases current
      {
        LinkOne(copied, current, depth);
        if depth >= CIRCULAR_LIMIT {
          return None;
        }
        var child := DuplicateRec(current.value, depth + 1, true);
        if child == None {
          return None;
        }
        copied := copied + [child.value];
        current := current.next;
      }
      copy := Some(Array(Chain(copied, NoElement)));
    case Object(ms) =>
      var current, copied := ms, [];
      while current.Member?
        invariant current == ms || current < ms
        invariant LinkedMembers(copied, DuplicateMembers(current, depth)) == DuplicateMembers(ms, depth)
        decreases current
      {
        LinkOneMember(copied, current, depth);
        if depth >= CIRCULAR_LIMIT {
          return None;
        }
        var child := DuplicateRec(current.value, depth + 1, true);
        if child == None {
          return None;
        }
        copied := copied + [Pair(current.key, child.value)];
        current := current.next;
      }
      copy := Some(Object(ChainMembers(copied, NoMember)));
    case _ => copy := Some(v);
  }
}
