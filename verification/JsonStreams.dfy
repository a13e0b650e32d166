/**
 Which beginnings of a token stream the duplicate-key walk lets pass: exactly those an acceptable JSON value can start
 with. Every other stream is refused at its first token that no acceptable value has there, whatever follows it.
 */
module JsonStreams {
  import opened CanonicalJson

  /* A verdict other than running out of tokens does not change when more tokens come. */
  ghost predicate Stays(w: Walk, longer: Walk)
  {
    w != Failed(EndOfInput) ==> longer == w
  }

  lemma {:induction false} FromStays(ts: seq<Token>, more: seq<Token>, pos: nat, tok: Token, depth: nat)
    requires pos <= |ts|
    ensures Stays(WalkFrom(ts, pos, tok, depth), WalkFrom(ts + more, pos, tok, depth))
    decreases |ts| - pos, 1
  {
    if tok == OpenObject {
      MembersStay(ts, more, pos, {}, depth);
    } else if tok == OpenArray {
      ElementsStay(ts, more, pos, depth);
    }
  }

  lemma {:induction false} ElementsStay(ts: seq<Token>, more: seq<Token>, pos: nat, depth: nat)
    requires pos <= |ts|
    ensures Stays(WalkElements(ts, pos, depth), WalkElements(ts + more, pos, depth))
    decreases |ts| - pos, 0
  {
    if pos < |ts| && ts[pos] != CloseArray {
      FromStays(ts, more, pos + 1, ts[pos], depth + 1);
      var first := WalkFrom(ts, pos + 1, ts[pos], depth + 1);
      if first.Done? {
        ElementsStay(ts, more, first.pos, depth);
      }
    }
  }

  lemma {:induction false} ValueStays(ts: seq<Token>, more: seq<Token>, pos: nat, depth: nat)
    requires pos <= |ts|
    ensures Stays(WalkValue(ts, pos, depth), WalkValue(ts + more, pos, depth))
    decreases |ts| - pos, 0
  {
    if depth <= MAX_DEPTH && pos < |ts| {
      FromStays(ts, more, pos + 1, ts[pos], depth);
    }
  }

  lemma {:induction false} MembersStay(ts: seq<Token>, more: seq<Token>, pos: nat, seen: set<string>, depth: nat)
    requires pos <= |ts|
    ensures Stays(WalkMembers(ts, pos, seen, depth), WalkMembers(ts + more, pos, seen, depth))
    decreases |ts| - pos, 0
  {
    if pos < |ts| && ts[pos].Text? && ts[pos].s !in seen {
      ValueStays(ts, more, pos + 1, depth + 1);
      var first := WalkValue(ts, pos + 1, depth + 1);
      if first.Done? {
        MembersStay(ts, more, first.pos, seen + {ts[pos].s}, depth);
      }
    }
  }

  // ----- whatever ran out of tokens can be completed -----

  lemma {:induction false} CompleteFrom(ts: seq<Token>, pos: nat, tok: Token, depth: nat) returns (more: seq<Token>)
    requires pos <= |ts| && WalkFrom(ts, pos, tok, depth) == Failed(EndOfInput)
    ensures more != [] && WalkFrom(ts + more, pos, tok, depth) == Done(|ts + more|)
    decreases |ts| - pos, 1
  {
    if tok == OpenObject {
      more := CompleteMembers(ts, pos, {}, depth);
    } else {
      more := CompleteElements(ts, pos, depth);
    }
  }

  lemma {:induction false} CompleteElements(ts: seq<Token>, pos: nat, depth: nat) returns (more: seq<Token>)
    requires pos <= |ts| && WalkElements(ts, pos, depth) == Failed(EndOfInput)
    ensures more != [] && WalkElements(ts + more, pos, depth) == Done(|ts + more|)
    decreases |ts| - pos, 0
  {
    if pos == |ts| {
      more := [CloseArray];
    } else {
      var first := WalkFrom(ts, pos + 1, ts[pos], depth + 1);
      if first.Done? {
        more := CompleteElements(ts, first.pos, depth);
        FromStays(ts, more, pos + 1, ts[pos], depth + 1);
      } else {
        var inner := CompleteFrom(ts, pos + 1, ts[pos], depth + 1);
        more := inner + [CloseArray];
        FromStays(ts + inner, [CloseArray], pos + 1, ts[pos], depth + 1);
        assert ts + more == ts + inner + [CloseArray];
        assert WalkElements(ts + more, |ts + inner|, depth) == Done(|ts + more|);
      }
    }
  }

  lemma {:induction false} CompleteValue(ts: seq<Token>, pos: nat, depth: nat) returns (more: seq<Token>)
    requires pos <= |ts| && WalkValue(ts, pos, depth) == Failed(EndOfInput)
    ensures more != [] && WalkValue(ts + more, pos, depth) == Done(|ts + more|)
    decreases |ts| - pos, 0
  {
    if pos == |ts| {
      more := [Null];
    } else {
      more := CompleteFrom(ts, pos + 1, ts[pos], depth);
    }
  }

  lemma {:induction false} CompleteMembers(ts: seq<Token>, pos: nat, seen: set<string>, depth: nat)
    returns (more: seq<Token>)
    requires pos <= |ts| && WalkMembers(ts, pos, seen, depth) == Failed(EndOfInput)
    ensures more != [] && WalkMembers(ts + more, pos, seen, depth) == Done(|ts + more|)
    decreases |ts| - pos, 0
  {
    if pos == |ts| {
      more := [CloseObject];
    } else {
      var first := WalkValue(ts, pos + 1, depth + 1);
      if first.Done? {
        more := CompleteMembers(ts, first.pos, seen + {ts[pos].s}, depth);
        ValueStays(ts, more, pos + 1, depth + 1);
      } else {
        var inner := CompleteValue(ts, pos + 1, depth + 1);
        more := inner + [CloseObject];
        ValueStays(ts + inner, [CloseObject], pos + 1, depth + 1);
        assert ts + more == ts + inner + [CloseObject];
        assert WalkMembers(ts + more, |ts + inner|, seen + {ts[pos].s}, depth) == Done(|ts + more|);
      }
    }
  }

  // ----- the error of any stream -----

  ghost predicate Acceptable(v: Json)
  {
    WellFormed(v) && UniqueNames(v) && DeepestMember(v) <= MAX_DEPTH
  }

  /* The tokens are a proper beginning of an acceptable value's. */
  ghost predicate Unfinished(ts: seq<Token>)
  {
    exists v, more :: more != [] && Acceptable(v) && Tokens(v) == ts + more
  }

  /* The walk runs out of tokens exactly on a stream that an acceptable value can still complete. */
  lemma EndOfInputExactly(ts: seq<Token>)
    ensures WalkValue(ts, 0, 0) == Failed(EndOfInput) <==> Unfinished(ts)
  {
    if WalkValue(ts, 0, 0) == Failed(EndOfInput) {
      var more := CompleteValue(ts, 0, 0);
      WalkAcceptsExactly(ts + more, |ts + more|);
      var v :| StartsWith(ts + more, v, |ts + more|) && UniqueNames(v) && DeepestMember(v) <= MAX_DEPTH;
      assert Tokens(v) == ts + more;
    }
    if v, more :| more != [] && Acceptable(v) && Tokens(v) == ts + more {
      assert StartsWith(ts + more, v, |ts + more|);
      WalkAcceptsExactly(ts + more, |ts + more|);
      ValueStays(ts, more, 0, 0);
    }
  }

  /* A token is called unexpected only where no JSON value at all, whatever its names and depths, can go on with it. */
  lemma UnexpectedIsNoJson(ts: seq<Token>, more: seq<Token>, v: Json, end: nat)
    requires WalkValue(ts, 0, 0) == Failed(UnexpectedToken)
    ensures !StartsWith(ts + more, v, end)
  {
    ValueStays(ts, more, 0, 0);
    if StartsWith(ts + more, v, end) {
      WalkOfPrefix(ts + more, end, v);
    }
  }

  /* A stream is refused as soon as it can no longer be completed: the error at its first such token stands, whatever
     comes after it. */
  lemma RefusedAtFirstFault(ts: seq<Token>, more: seq<Token>)
    ensures !Unfinished(ts) && WalkValue(ts, 0, 0).Failed? ==> WalkValue(ts + more, 0, 0) == WalkValue(ts, 0, 0)
    ensures Unfinished(ts + more) ==> Unfinished(ts)
  {
    EndOfInputExactly(ts);
    ValueStays(ts, more, 0, 0);
    BeginningUnfinished(ts, more);
  }

  lemma BeginningUnfinished(ts: seq<Token>, more: seq<Token>)
    ensures Unfinished(ts + more) ==> Unfinished(ts)
  {
    if Unfinished(ts + more) {
      var v, rest :| rest != [] && Acceptable(v) && Tokens(v) == (ts + more) + rest;
      assert (ts + more) + rest == ts + (more + rest);
      assert more + rest != [];
    }
  }
}
