/**
 internal/canonicaljson: the duplicate-key walk over a decoder's token stream.
 Tokens are what json.Decoder.Token yields: delimiters and decoded scalars.
 */
module CanonicalJson {
  import opened Prelude

  const MAX_DEPTH := 32

  datatype Token =
    | OpenObject | CloseObject | OpenArray | CloseArray
    | Text(s: string)
    | Number(literal: string)
    | Bool(b: bool)
    | Null

  datatype Json =
    | Scalar(tok: Token)
    | Arr(elems: seq<Json>)
    | Obj(members: seq<Member>)

  datatype Member = Member(key: string, value: Json)

  predicate IsScalar(t: Token)
  {
    t.Text? || t.Number? || t.Bool? || t.Null?
  }

  /* A tree whose leaves are scalar tokens. */
  predicate WellFormed(v: Json)
  {
    match v
    case Scalar(t) => IsScalar(t)
    case Arr(es) => forall e :: e in es ==> WellFormed(e)
    case Obj(ms) => forall m :: m in ms ==> WellFormed(m.value)
  }

  // ----- the token stream of a tree -----

  function Tokens(v: Json): seq<Token>
    decreases v
  {
    match v
    case Scalar(t) => [t]
    case Arr(es) => [OpenArray] + ElementTokens(es) + [CloseArray]
    case Obj(ms) => [OpenObject] + MemberTokens(ms) + [CloseObject]
  }

  function ElementTokens(es: seq<Json>): seq<Token>
    decreases es
  {
    if es == [] then [] else Tokens(es[0]) + ElementTokens(es[1..])
  }

  function MemberTokens(ms: seq<Member>): seq<Token>
    decreases ms
  {
    if ms == [] then [] else [Text(ms[0].key)] + Tokens(ms[0].value) + MemberTokens(ms[1..])
  }

  // ----- what the walk is for -----

  /* No object at any depth repeats a member name (section 4 of RFC 8259). */
  ghost predicate UniqueNames(v: Json)
  {
    match v
    case Scalar(_) => true
    case Arr(es) => forall e :: e in es ==> UniqueNames(e)
    case Obj(ms) => DistinctBy((m: Member) => m.key, ms) && forall m :: m in ms ==> UniqueNames(m.value)
  }

  /* The greatest nesting depth at which an object-member value lies, 0 if there is none.
     Array elements add to the depth of what they hold without counting themselves. */
  function DeepestMember(v: Json): nat
    decreases v
  {
    match v
    case Scalar(_) => 0
    case Arr(es) =>
      var d := DeepestInElements(es);
      if d == 0 then 0 else d + 1
    case Obj(ms) => DeepestInMembers(ms)
  }

  function DeepestInElements(es: seq<Json>): nat
    decreases es
  {
    if es == [] then 0 else
      var a, b := DeepestMember(es[0]), DeepestInElements(es[1..]);
      if a < b then b else a
  }

  function DeepestInMembers(ms: seq<Member>): nat
    decreases ms
  {
    if ms == [] then 0 else
      var a, b := DeepestMember(ms[0].value) + 1, DeepestInMembers(ms[1..]);
      if a < b then b else a
  }

  /* With v itself at the given depth, no object member in v lies deeper than MAX_DEPTH. */
  ghost predicate Shallow(v: Json, depth: nat)
  {
    DeepestMember(v) == 0 || depth + DeepestMember(v) <= MAX_DEPTH
  }

  // ----- the walk -----

  datatype JsonError = DuplicateKey | TooDeep | UnexpectedToken | EndOfInput

  datatype Walk = Done(pos: nat) | Failed(error: JsonError)

  function WalkValue(ts: seq<Token>, pos: nat, depth: nat): (w: Walk)
    requires pos <= |ts|
    ensures w.Done? ==> pos < w.pos <= |ts|
    decreases |ts| - pos, 2
  {
    if depth > MAX_DEPTH then Failed(TooDeep)
    else if pos == |ts| then Failed(EndOfInput)
    else WalkFrom(ts, pos + 1, ts[pos], depth)
  }

  function WalkFrom(ts: seq<Token>, pos: nat, tok: Token, depth: nat): (w: Walk)
    requires pos <= |ts|
    ensures w.Done? ==> pos <= w.pos <= |ts|
    decreases |ts| - pos, 1
  {
    if IsScalar(tok) then Done(pos)
    else if tok == OpenObject then WalkMembers(ts, pos, {}, depth)
    else if tok == OpenArray then WalkElements(ts, pos, depth)
    else Failed(UnexpectedToken)
  }

  function WalkMembers(ts: seq<Token>, pos: nat, seen: set<string>, depth: nat): (w: Walk)
    requires pos <= |ts|
    ensures w.Done? ==> pos < w.pos <= |ts|
    decreases |ts| - pos, 0
  {
    if pos == |ts| then Failed(EndOfInput)
    else if ts[pos] == CloseObject then Done(pos + 1)
    else if !ts[pos].Text? then Failed(UnexpectedToken)
    else if ts[pos].s in seen then Failed(DuplicateKey)
    else
      match WalkValue(ts, pos + 1, depth + 1)
      case Failed(e) => Failed(e)
      case Done(next) => WalkMembers(ts, next, seen + {ts[pos].s}, depth)
  }

  function WalkElements(ts: seq<Token>, pos: nat, depth: nat): (w: Walk)
    requires pos <= |ts|
    ensures w.Done? ==> pos < w.pos <= |ts|
    decreases |ts| - pos, 0
  {
    if pos == |ts| then Failed(EndOfInput)
    else if ts[pos] == CloseArray then Done(pos + 1)
    else
      match WalkFrom(ts, pos + 1, ts[pos], depth + 1)
      case Failed(e) => Failed(e)
      case Done(next) => WalkElements(ts, next, depth)
  }

  // ----- the walk on the stream of a tree -----

  /* The walk ends at end when nothing is wrong; otherwise it fails, and when only one
     kind of defect is present it names that kind. */
  ghost predicate Judges(w: Walk, unique: bool, shallow: bool, end: nat)
  {
    if unique && shallow then w == Done(end)
    else
      && w.Failed?
      && (w.error == DuplicateKey || w.error == TooDeep)
      && (unique ==> w.error == TooDeep)
      && (shallow ==> w.error == DuplicateKey)
  }

  /* A walk that goes on only if its first part succeeds judges both parts. */
  lemma JudgesBoth(first: Walk, unique: bool, shallow: bool, mid: nat, rest: Walk, unique': bool, shallow': bool,
                   end: nat)
    requires Judges(first, unique, shallow, mid) && Judges(rest, unique', shallow', end)
    ensures Judges(if first.Done? then rest else first, unique && unique', shallow && shallow', end)
  {
  }

  lemma JudgedEnd(w: Walk, unique: bool, shallow: bool, end: nat)
    requires Judges(w, unique, shallow, end)
    ensures w.Done? ==> w.pos == end
  {
  }

  /* ts holds the tokens xs at pos. */
  ghost predicate At(ts: seq<Token>, pos: nat, xs: seq<Token>)
  {
    pos + |xs| <= |ts| && ts[pos..pos + |xs|] == xs
  }

  lemma AtSplit(ts: seq<Token>, pos: nat, xs: seq<Token>, ys: seq<Token>)
    requires At(ts, pos, xs + ys)
    ensures At(ts, pos, xs) && At(ts, pos + |xs|, ys)
  {
    assert ts[pos..pos + |xs|] == (xs + ys)[..|xs|];
    assert ts[pos + |xs|..pos + |xs| + |ys|] == (xs + ys)[|xs|..];
  }

  lemma {:induction false} DeepestElements(es: seq<Json>, bound: nat)
    ensures DeepestInElements(es) <= bound <==> forall e :: e in es ==> DeepestMember(e) <= bound
  {
    if es != [] {
      DeepestElements(es[1..], bound);
      assert es[0] in es;
      assert forall e :: e in es <==> e == es[0] || e in es[1..];
    }
  }

  lemma {:induction false} DeepestMembers(ms: seq<Member>, bound: nat)
    ensures DeepestInMembers(ms) <= bound <==> forall m :: m in ms ==> DeepestMember(m.value) + 1 <= bound
  {
    if ms != [] {
      DeepestMembers(ms[1..], bound);
      assert forall m :: m in ms <==> m == ms[0] || m in ms[1..];
    }
  }

  /* How much deeper than depth a member may still lie. */
  function Room(depth: nat): nat
  {
    if depth < MAX_DEPTH then MAX_DEPTH - depth else 0
  }

  ghost predicate ElementsUnique(es: seq<Json>)
  {
    forall e :: e in es ==> UniqueNames(e)
  }

  ghost predicate ElementsShallow(es: seq<Json>, depth: nat)
  {
    forall e :: e in es ==> Shallow(e, depth + 1)
  }

  lemma ElementsCons(e: Json, tail: seq<Json>, depth: nat)
    ensures ElementsUnique([e] + tail) <==> UniqueNames(e) && ElementsUnique(tail)
    ensures ElementsShallow([e] + tail, depth) <==> Shallow(e, depth + 1) && ElementsShallow(tail, depth)
  {
    var es := [e] + tail;
    assert e in es && forall x :: x in es <==> x == e || x in tail;
  }

  lemma ArrayShallow(es: seq<Json>, depth: nat)
    ensures Shallow(Arr(es), depth) <==> ElementsShallow(es, depth)
  {
    DeepestElements(es, Room(depth + 1));
    assert DeepestMember(Arr(es)) == 0 || DeepestMember(Arr(es)) == DeepestInElements(es) + 1;
  }

  /* seen are the names met before ms in the same object. */
  ghost predicate MembersUnique(ms: seq<Member>, seen: set<string>)
  {
    && DistinctBy((m: Member) => m.key, ms)
    && (forall m :: m in ms ==> m.key !in seen && UniqueNames(m.value))
  }

  ghost predicate MembersShallow(ms: seq<Member>, depth: nat)
  {
    forall m :: m in ms ==> depth + 1 <= MAX_DEPTH && Shallow(m.value, depth + 1)
  }

  lemma ObjectShallow(ms: seq<Member>, depth: nat)
    ensures Shallow(Obj(ms), depth) <==> MembersShallow(ms, depth)
  {
    DeepestMembers(ms, Room(depth));
    assert DeepestMember(Obj(ms)) == DeepestInMembers(ms);
  }

  lemma MembersCons(m: Member, tail: seq<Member>, seen: set<string>, met: set<string>, depth: nat)
    requires met == seen + {m.key}
    ensures MembersUnique([m] + tail, seen) <==> m.key !in seen && UniqueNames(m.value) && MembersUnique(tail, met)
    ensures MembersShallow([m] + tail, depth) <==>
            depth + 1 <= MAX_DEPTH && Shallow(m.value, depth + 1) && MembersShallow(tail, depth)
  {
    var ms, key := [m] + tail, (x: Member) => x.key;
    DistinctByCons(key, m, tail);
    assert m in ms && forall x :: x in ms <==> x == m || x in tail;
  }

  /* The walk of the value at pos judges v and ends where v's tokens end. */
  ghost predicate ValueJudged(ts: seq<Token>, pos: nat, v: Json, depth: nat)
    requires pos < |ts|
  {
    Judges(WalkFrom(ts, pos + 1, ts[pos], depth), UniqueNames(v), Shallow(v, depth), pos + |Tokens(v)|)
  }

  ghost predicate ElementsJudged(ts: seq<Token>, pos: nat, es: seq<Json>, depth: nat)
    requires pos <= |ts|
  {
    Judges(WalkElements(ts, pos, depth), ElementsUnique(es), ElementsShallow(es, depth), pos + |ElementTokens(es)| + 1)
  }

  ghost predicate MembersJudged(ts: seq<Token>, pos: nat, ms: seq<Member>, seen: set<string>, depth: nat)
    requires pos <= |ts|
  {
    Judges(WalkMembers(ts, pos, seen, depth), MembersUnique(ms, seen), MembersShallow(ms, depth),
           pos + |MemberTokens(ms)| + 1)
  }

  lemma ArrayJudged(ts: seq<Token>, pos: nat, es: seq<Json>, depth: nat)
    requires pos < |ts| && ts[pos] == OpenArray && ElementsJudged(ts, pos + 1, es, depth)
    ensures ValueJudged(ts, pos, Arr(es), depth)
  {
    ArrayShallow(es, depth);
  }

  lemma ObjectJudged(ts: seq<Token>, pos: nat, ms: seq<Member>, depth: nat)
    requires pos < |ts| && ts[pos] == OpenObject && MembersJudged(ts, pos + 1, ms, {}, depth)
    ensures ValueJudged(ts, pos, Obj(ms), depth)
  {
    ObjectShallow(ms, depth);
  }

  lemma BodyStream(ts: seq<Token>, pos: nat, open: Token, body: seq<Token>)
    requires At(ts, pos, [open] + body)
    ensures pos < |ts| && ts[pos] == open && At(ts, pos + 1, body)
  {
    AtHead(ts, pos, [open] + body);
    AtSplit(ts, pos, [open], body);
  }

  lemma {:induction false} WalkFromTree(ts: seq<Token>, pos: nat, v: Json, depth: nat)
    requires WellFormed(v) && At(ts, pos, Tokens(v))
    ensures pos < |ts| && ValueJudged(ts, pos, v, depth)
    decreases v
  {
    match v
    case Scalar(t) =>
      AtHead(ts, pos, [t]);
    case Arr(es) =>
      assert Tokens(v) == [OpenArray] + (ElementTokens(es) + [CloseArray]);
      BodyStream(ts, pos, OpenArray, ElementTokens(es) + [CloseArray]);
      WalkElementsTree(ts, pos + 1, es, depth);
      ArrayJudged(ts, pos, es, depth);
    case Obj(ms) =>
      assert Tokens(v) == [OpenObject] + (MemberTokens(ms) + [CloseObject]);
      BodyStream(ts, pos, OpenObject, MemberTokens(ms) + [CloseObject]);
      WalkMembersTree(ts, pos + 1, ms, {}, depth);
      ObjectJudged(ts, pos, ms, depth);
  }

  lemma AtHead(ts: seq<Token>, pos: nat, xs: seq<Token>)
    requires At(ts, pos, xs) && xs != []
    ensures ts[pos] == xs[0]
  {
    assert ts[pos] == ts[pos..pos + |xs|][0];
  }

  lemma WalkElementsStep(ts: seq<Token>, pos: nat, next: nat, depth: nat)
    requires pos < |ts| && ts[pos] != CloseArray && next <= |ts|
    requires var first := WalkFrom(ts, pos + 1, ts[pos], depth + 1); first.Done? ==> first.pos == next
    ensures var first := WalkFrom(ts, pos + 1, ts[pos], depth + 1);
            WalkElements(ts, pos, depth) == if first.Done? then WalkElements(ts, next, depth) else first
  {
  }

  lemma WalkMembersStep(ts: seq<Token>, pos: nat, seen: set<string>, met: set<string>, depth: nat)
    requires pos + 1 < |ts| && ts[pos].Text? && met == seen + {ts[pos].s}
    ensures WalkMembers(ts, pos, seen, depth) ==
            if ts[pos].s in seen then Failed(DuplicateKey)
            else if depth + 1 > MAX_DEPTH then Failed(TooDeep)
            else
              var first := WalkFrom(ts, pos + 2, ts[pos + 1], depth + 1);
              if first.Done? then WalkMembers(ts, first.pos, met, depth) else first
  {
  }

  lemma TokensStart(v: Json)
    requires WellFormed(v)
    ensures Tokens(v) != [] && Tokens(v)[0] != CloseArray
  {
  }

  /* The stream of an array body, taken apart at its first element. */
  lemma ElementStream(ts: seq<Token>, pos: nat, e: Json, tail: seq<Json>)
    requires WellFormed(e) && At(ts, pos, ElementTokens([e] + tail) + [CloseArray])
    ensures At(ts, pos, Tokens(e)) && pos < |ts| && ts[pos] != CloseArray
    ensures At(ts, pos + |Tokens(e)|, ElementTokens(tail) + [CloseArray])
    ensures |ElementTokens([e] + tail)| == |Tokens(e)| + |ElementTokens(tail)|
  {
    ElementTokensCons(e, tail);
    AtSplit(ts, pos, Tokens(e), ElementTokens(tail) + [CloseArray]);
    TokensStart(e);
    AtHead(ts, pos, Tokens(e));
  }

  lemma ElementTokensCons(e: Json, tail: seq<Json>)
    ensures ElementTokens([e] + tail) == Tokens(e) + ElementTokens(tail)
    ensures ElementTokens([e] + tail) + [CloseArray] == Tokens(e) + (ElementTokens(tail) + [CloseArray])
  {
    assert ([e] + tail)[0] == e && ([e] + tail)[1..] == tail;
  }

  lemma NoElementsJudged(ts: seq<Token>, pos: nat, depth: nat)
    requires At(ts, pos, [CloseArray])
    ensures ElementsJudged(ts, pos, [], depth)
  {
    AtHead(ts, pos, [CloseArray]);
  }

  lemma ElementJudged(ts: seq<Token>, pos: nat, e: Json, next: nat, tail: seq<Json>, depth: nat)
    requires pos < |ts| && ts[pos] != CloseArray && ValueJudged(ts, pos, e, depth + 1)
    requires next == pos + |Tokens(e)| <= |ts| && ElementsJudged(ts, next, tail, depth)
    requires |ElementTokens([e] + tail)| == |Tokens(e)| + |ElementTokens(tail)|
    ensures ElementsJudged(ts, pos, [e] + tail, depth)
  {
    ElementsCons(e, tail, depth);
    var end := pos + |ElementTokens([e] + tail)| + 1;
    var first, rest := WalkFrom(ts, pos + 1, ts[pos], depth + 1), WalkElements(ts, next, depth);
    JudgedEnd(first, UniqueNames(e), Shallow(e, depth + 1), next);
    WalkElementsStep(ts, pos, next, depth);
    JudgesBoth(first, UniqueNames(e), Shallow(e, depth + 1), next,
               rest, ElementsUnique(tail), ElementsShallow(tail, depth), end);
  }

  ghost predicate ElementsFormed(es: seq<Json>)
  {
    forall e :: e in es ==> WellFormed(e)
  }

  lemma ElementsFormedCons(e: Json, tail: seq<Json>)
    requires ElementsFormed([e] + tail)
    ensures WellFormed(e) && ElementsFormed(tail)
  {
    assert ([e] + tail)[0] == e && forall x :: x in tail ==> x in [e] + tail;
  }

  lemma {:induction false} WalkElementsTree(ts: seq<Token>, pos: nat, es: seq<Json>, depth: nat)
    requires ElementsFormed(es) && At(ts, pos, ElementTokens(es) + [CloseArray])
    ensures ElementsJudged(ts, pos, es, depth)
    decreases es
  {
    if es == [] {
      assert ElementTokens(es) + [CloseArray] == [CloseArray];
      NoElementsJudged(ts, pos, depth);
    } else {
      var e, tail := es[0], es[1..];
      assert es == [e] + tail;
      ElementsFormedCons(e, tail);
      ElementStream(ts, pos, e, tail);
      WalkFromTree(ts, pos, e, depth + 1);
      var next := pos + |Tokens(e)|;
      WalkElementsTree(ts, next, tail, depth);
      ElementJudged(ts, pos, e, next, tail, depth);
    }
  }

  /* The stream of an object body, taken apart at its first member. */
  lemma MemberStream(ts: seq<Token>, pos: nat, m: Member, tail: seq<Member>)
    requires At(ts, pos, MemberTokens([m] + tail) + [CloseObject])
    ensures At(ts, pos + 1, Tokens(m.value)) && pos + 1 < |ts| && ts[pos] == Text(m.key)
    ensures At(ts, pos + 1 + |Tokens(m.value)|, MemberTokens(tail) + [CloseObject])
    ensures |MemberTokens([m] + tail)| == 1 + |Tokens(m.value)| + |MemberTokens(tail)|
  {
    var rest := MemberTokens(tail) + [CloseObject];
    MemberTokensCons(m, tail);
    AtSplit(ts, pos, [Text(m.key)], Tokens(m.value) + rest);
    AtSplit(ts, pos + 1, Tokens(m.value), rest);
    AtHead(ts, pos, [Text(m.key)]);
  }

  lemma MemberTokensCons(m: Member, tail: seq<Member>)
    ensures |MemberTokens([m] + tail)| == 1 + |Tokens(m.value)| + |MemberTokens(tail)|
    ensures MemberTokens([m] + tail) + [CloseObject] ==
            [Text(m.key)] + (Tokens(m.value) + (MemberTokens(tail) + [CloseObject]))
  {
    assert ([m] + tail)[0] == m && ([m] + tail)[1..] == tail;
  }

  lemma NoMembersJudged(ts: seq<Token>, pos: nat, seen: set<string>, depth: nat)
    requires At(ts, pos, [CloseObject])
    ensures MembersJudged(ts, pos, [], seen, depth)
  {
    AtHead(ts, pos, [CloseObject]);
  }

  lemma MemberJudged(ts: seq<Token>, pos: nat, m: Member, next: nat, tail: seq<Member>, seen: set<string>,
                     met: set<string>, depth: nat)
    requires pos + 1 < |ts| && ts[pos] == Text(m.key) && ValueJudged(ts, pos + 1, m.value, depth + 1)
    requires next == pos + 1 + |Tokens(m.value)| <= |ts| && met == seen + {m.key}
    requires MembersJudged(ts, next, tail, met, depth)
    requires |MemberTokens([m] + tail)| == 1 + |Tokens(m.value)| + |MemberTokens(tail)|
    ensures MembersJudged(ts, pos, [m] + tail, seen, depth)
  {
    MembersCons(m, tail, seen, met, depth);
    WalkMembersStep(ts, pos, seen, met, depth);
    var end := pos + |MemberTokens([m] + tail)| + 1;
    var first, rest := WalkFrom(ts, pos + 2, ts[pos + 1], depth + 1), WalkMembers(ts, next, met, depth);
    JudgesBoth(first, UniqueNames(m.value), Shallow(m.value, depth + 1), next,
               rest, MembersUnique(tail, met), MembersShallow(tail, depth), end);
    JudgedEnd(first, UniqueNames(m.value), Shallow(m.value, depth + 1), next);
  }

  ghost predicate MembersFormed(ms: seq<Member>)
  {
    forall m :: m in ms ==> WellFormed(m.value)
  }

  lemma MembersFormedCons(m: Member, tail: seq<Member>)
    requires MembersFormed([m] + tail)
    ensures WellFormed(m.value) && MembersFormed(tail)
  {
    assert ([m] + tail)[0] == m && forall x :: x in tail ==> x in [m] + tail;
  }

  lemma {:induction false} WalkMembersTree(ts: seq<Token>, pos: nat, ms: seq<Member>, seen: set<string>, depth: nat)
    requires MembersFormed(ms) && At(ts, pos, MemberTokens(ms) + [CloseObject])
    ensures MembersJudged(ts, pos, ms, seen, depth)
    decreases ms
  {
    if ms == [] {
      assert MemberTokens(ms) + [CloseObject] == [CloseObject];
      NoMembersJudged(ts, pos, seen, depth);
    } else {
      var m, tail := ms[0], ms[1..];
      assert ms == [m] + tail;
      MembersFormedCons(m, tail);
      MemberStream(ts, pos, m, tail);
      WalkFromTree(ts, pos + 1, m.value, depth + 1);
      var next, met := pos + 1 + |Tokens(m.value)|, seen + {m.key};
      WalkMembersTree(ts, next, tail, met, depth);
      MemberJudged(ts, pos, m, next, tail, seen, met, depth);
    }
  }

  /* On any stream that starts with the tokens of a JSON value, the walk consumes exactly that
     value, and accepts it exactly when no object in it repeats a name and no object-member
     value lies deeper than 32; a lone defect is named for what it is. */
  lemma WalkAgreesWithTree(v: Json, rest: seq<Token>)
    requires WellFormed(v)
    ensures var w := WalkValue(Tokens(v) + rest, 0, 0);
            Judges(w, UniqueNames(v), DeepestMember(v) <= MAX_DEPTH, |Tokens(v)|)
  {
    var ts := Tokens(v) + rest;
    assert ts[0..|Tokens(v)|] == Tokens(v);
    WalkFromTree(ts, 0, v, 0);
  }

  // ----- and on any stream at all -----

  lemma {:induction false} WalkFromSound(ts: seq<Token>, pos: nat, depth: nat) returns (v: Json)
    requires pos < |ts| && WalkFrom(ts, pos + 1, ts[pos], depth).Done?
    ensures WellFormed(v)
    ensures Tokens(v) == ts[pos..WalkFrom(ts, pos + 1, ts[pos], depth).pos]
    decreases |ts| - pos, 0
  {
    var end := WalkFrom(ts, pos + 1, ts[pos], depth).pos;
    if IsScalar(ts[pos]) {
      v := Scalar(ts[pos]);
    } else if ts[pos] == OpenObject {
      var ms := WalkMembersSound(ts, pos + 1, {}, depth);
      v := Obj(ms);
      assert ts[pos..end] == [OpenObject] + ts[pos + 1..end];
    } else {
      var es := WalkElementsSound(ts, pos + 1, depth);
      v := Arr(es);
      assert ts[pos..end] == [OpenArray] + ts[pos + 1..end];
    }
  }

  lemma SliceTwo(ts: seq<Token>, pos: nat, next: nat, end: nat)
    requires pos <= next <= end <= |ts|
    ensures ts[pos..end] == ts[pos..next] + ts[next..end]
  {
  }

  lemma {:induction false} WalkElementsSound(ts: seq<Token>, pos: nat, depth: nat) returns (es: seq<Json>)
    requires pos <= |ts| && WalkElements(ts, pos, depth).Done?
    ensures ElementsFormed(es)
    ensures ElementTokens(es) + [CloseArray] == ts[pos..WalkElements(ts, pos, depth).pos]
    decreases |ts| - pos, 1
  {
    if ts[pos] == CloseArray {
      es := [];
    } else {
      var next := WalkFrom(ts, pos + 1, ts[pos], depth + 1).pos;
      var end := WalkElements(ts, pos, depth).pos;
      var e := WalkFromSound(ts, pos, depth + 1);
      var tail := WalkElementsSound(ts, next, depth);
      es := [e] + tail;
      ElementTokensCons(e, tail);
      SliceTwo(ts, pos, next, end);
    }
  }

  lemma SliceThree(ts: seq<Token>, pos: nat, next: nat, end: nat)
    requires pos < next <= end <= |ts|
    ensures ts[pos..end] == [ts[pos]] + (ts[pos + 1..next] + ts[next..end])
  {
  }

  lemma {:induction false} WalkMembersSound(ts: seq<Token>, pos: nat, seen: set<string>, depth: nat)
    returns (ms: seq<Member>)
    requires pos <= |ts| && WalkMembers(ts, pos, seen, depth).Done?
    ensures MembersFormed(ms)
    ensures MemberTokens(ms) + [CloseObject] == ts[pos..WalkMembers(ts, pos, seen, depth).pos]
    decreases |ts| - pos, 1
  {
    if ts[pos] == CloseObject {
      ms := [];
    } else {
      var next := WalkValue(ts, pos + 1, depth + 1).pos;
      var end := WalkMembers(ts, pos, seen, depth).pos;
      var v := WalkFromSound(ts, pos + 1, depth + 1);
      var tail := WalkMembersSound(ts, next, seen + {ts[pos].s}, depth);
      ms := [Member(ts[pos].s, v)] + tail;
      MemberTokensCons(Member(ts[pos].s, v), tail);
      SliceThree(ts, pos, next, end);
    }
  }

  /* The stream starts with the tokens of v, which end at position end. */
  ghost predicate StartsWith(tokens: seq<Token>, v: Json, end: nat)
  {
    end <= |tokens| && WellFormed(v) && Tokens(v) == tokens[..end]
  }

  /* Whatever the stream, the walk accepts exactly the acceptable trees that start it. */
  lemma WalkAcceptsExactly(ts: seq<Token>, end: nat)
    ensures WalkValue(ts, 0, 0) == Done(end) <==>
            exists v :: StartsWith(ts, v, end) && UniqueNames(v) && DeepestMember(v) <= MAX_DEPTH
  {
    if WalkValue(ts, 0, 0) == Done(end) {
      var v := WalkFromSound(ts, 0, 0);
      assert StartsWith(ts, v, end);
      WalkOfPrefix(ts, end, v);
    }
    if v :| StartsWith(ts, v, end) && UniqueNames(v) && DeepestMember(v) <= MAX_DEPTH {
      WalkOfPrefix(ts, end, v);
    }
  }

  lemma WalkOfPrefix(ts: seq<Token>, end: nat, v: Json)
    requires StartsWith(ts, v, end)
    ensures Judges(WalkValue(ts, 0, 0), UniqueNames(v), DeepestMember(v) <= MAX_DEPTH, end)
  {
    assert ts == Tokens(v) + ts[end..];
    WalkAgreesWithTree(v, ts[end..]);
  }

  // ----- the walk as the source writes it -----

  class Decoder {
    const tokens: seq<Token>
    var pos: nat

    constructor (tokens: seq<Token>)
      ensures this.tokens == tokens && pos == 0
    {
      this.tokens := tokens;
      pos := 0;
    }

    method Next() returns (tok: Option<Token>)
      modifies this
      ensures if old(pos) < |tokens| then tok == Some(tokens[old(pos)]) && pos == old(pos) + 1
              else tok == None && pos == old(pos)
    {
      if pos < |tokens| {
        tok := Some(tokens[pos]);
        pos := pos + 1;
      } else {
        tok := None;
      }
    }
  }

  ghost predicate Reports(w: Walk, err: Option<JsonError>, pos: nat)
  {
    match w
    case Done(end) => err == None && pos == end
    case Failed(e) => err == Some(e)
  }

  method CheckValue(dec: Decoder, depth: nat) returns (err: Option<JsonError>)
    requires dec.pos <= |dec.tokens|
    modifies dec
    ensures old(dec.pos) <= dec.pos <= |dec.tokens|
    ensures Reports(WalkValue(dec.tokens, old(dec.pos), depth), err, dec.pos)
    decreases |dec.tokens| - dec.pos, 1
  {
    if depth > MAX_DEPTH {
      return Some(TooDeep);
    }
    var tok := dec.Next();
    if tok.None? {
      return Some(EndOfInput);
    }
    err := CheckFrom(dec, tok.value, depth);
  }

  method CheckFrom(dec: Decoder, tok: Token, depth: nat) returns (err: Option<JsonError>)
    requires dec.pos <= |dec.tokens|
    modifies dec
    ensures old(dec.pos) <= dec.pos <= |dec.tokens|
    ensures Reports(WalkFrom(dec.tokens, old(dec.pos), tok, depth), err, dec.pos)
    decreases |dec.tokens| - dec.pos, 2
  {
    if IsScalar(tok) {
      return None;
    }
    ghost var start := dec.pos;
    if tok == OpenObject {
      var seen: set<string> := {};
      while true
        invariant start <= dec.pos <= |dec.tokens|
        invariant WalkMembers(dec.tokens, start, {}, depth) == WalkMembers(dec.tokens, dec.pos, seen, depth)
        decreases |dec.tokens| - dec.pos
      {
        var keyTok := dec.Next();
        if keyTok.None? {
          return Some(EndOfInput);
        }
        if keyTok.value == CloseObject {
          return None;
        }
        if !keyTok.value.Text? {
          return Some(UnexpectedToken);
        }
        var key := keyTok.value.s;
        if key in seen {
          return Some(DuplicateKey);
        }
        seen := seen + {key};
        err := CheckValue(dec, depth + 1);
        if err.Some? {
          return;
        }
      }
    }
    if tok == OpenArray {
      while true
        invariant start <= dec.pos <= |dec.tokens|
        invariant WalkElements(dec.tokens, start, depth) == WalkElements(dec.tokens, dec.pos, depth)
        decreases |dec.tokens| - dec.pos
      {
        var next := dec.Next();
        if next.None? {
          return Some(EndOfInput);
        }
        if next.value == CloseArray {
          return None;
        }
        err := CheckFrom(dec, next.value, depth + 1);
        if err.Some? {
          return;
        }
      }
    }
    err := Some(UnexpectedToken);
  }

  method CheckDuplicateKeys(tokens: seq<Token>) returns (err: Option<JsonError>)
    ensures err == match WalkValue(tokens, 0, 0) case Done(_) => None case Failed(e) => Some(e)
    ensures err.None? <==>
            exists v, end: nat :: StartsWith(tokens, v, end) && UniqueNames(v) && DeepestMember(v) <= MAX_DEPTH
    ensures forall v, end: nat :: StartsWith(tokens, v, end) && err.Some? ==>
              && (err.value == DuplicateKey || err.value == TooDeep)
              && (UniqueNames(v) ==> err.value == TooDeep)
              && (DeepestMember(v) <= MAX_DEPTH ==> err.value == DuplicateKey)
  {
    var dec := new Decoder(tokens);
    err := CheckValue(dec, 0);
    if err.None? {
      WalkAcceptsExactly(tokens, dec.pos);
      var v := WalkFromSound(tokens, 0, 0);
      assert StartsWith(tokens, v, dec.pos);
      WalkOfPrefix(tokens, dec.pos, v);
    }
    forall v, end: nat | StartsWith(tokens, v, end)
      ensures Judges(WalkValue(tokens, 0, 0), UniqueNames(v), DeepestMember(v) <= MAX_DEPTH, end)
    {
      WalkOfPrefix(tokens, end, v);
    }
  }
}
