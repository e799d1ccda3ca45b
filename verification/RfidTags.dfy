/**
 * The table of authorised RFID tags: storage_updateRFIDTagsToFile and storage_lookupRFIDTagInList
 * in main/storage.c. Tags live under numbered keys; a removed tag is replaced by the last one.
 */
module RfidTags {
  import opened Optional

  const MAX_NR_OF_RFID_TAGS: nat := 20
  const DEFAULT_STR_SIZE: nat := 37

  type Tag = string

  const WILDCARD: Tag := "*"

  datatype Action = Add | Remove | Other

  datatype Token = Token(tag: Tag, action: Action)

  /** The stored string, with its terminator, fits the buffer it is compared in. */
  predicate Short(tag: Tag) {
    |tag| + 1 <= DEFAULT_STR_SIZE + 4
  }

  predicate Matches(stored: Tag, tag: Tag) {
    Short(stored) && stored == tag
  }

  // ----- the table as a list

  function RemoveAt(list: seq<Tag>, k: nat): (r: seq<Tag>)
    requires k < |list|
    ensures |r| == |list| - 1
  {
    list[k := list[|list| - 1]][..|list| - 1]
  }

  /** The scan for one tag; a tag moved into a gap is not looked at again. */
  function RemoveFrom(list: seq<Tag>, tag: Tag, k: nat): (r: seq<Tag>)
    ensures |r| <= |list|
    decreases |list| - k
  {
    if k >= |list| then list
    else RemoveFrom(if Matches(list[k], tag) then RemoveAt(list, k) else list, tag, k + 1)
  }

  function RemoveAll(list: seq<Tag>, tokens: seq<Token>): (r: seq<Tag>)
    ensures |r| <= |list|
    decreases |tokens|
  {
    if tokens == [] then list
    else RemoveAll(if tokens[0].action == Remove then RemoveFrom(list, tokens[0].tag, 0) else list, tokens[1..])
  }

  predicate Contains(list: seq<Tag>, tag: Tag) {
    exists i | 0 <= i < |list| :: Matches(list[i], tag)
  }

  /** Tags are looked up among the first `known`, those of before this batch. */
  function AddAll(list: seq<Tag>, known: nat, tokens: seq<Token>): seq<Tag>
    requires known <= |list|
    decreases |tokens|
  {
    if tokens == [] then list
    else if tokens[0].action == Add && !Contains(list[..known], tokens[0].tag) && |list| < MAX_NR_OF_RFID_TAGS then
      AddAll(list + [tokens[0].tag], known, tokens[1..])
    else AddAll(list, known, tokens[1..])
  }

  function Updated(list: seq<Tag>, tokens: seq<Token>): seq<Tag> {
    var rest := RemoveAll(list, tokens);
    AddAll(rest, |rest|, tokens)
  }

  predicate Authorises(list: seq<Tag>, tag: Tag) {
    exists i | 0 <= i < |list| :: |list[i]| + 1 <= 50 && (list[i] == WILDCARD || list[i] == tag)
  }

  // ----- the table as a set

  function Elements(list: seq<Tag>): set<Tag> {
    set x | x in list
  }

  predicate Distinct(list: seq<Tag>) {
    forall i, j :: 0 <= i < j < |list| ==> list[i] != list[j]
  }

  predicate AllShort(list: seq<Tag>) {
    forall i :: 0 <= i < |list| ==> Short(list[i])
  }

  function Named(tokens: seq<Token>, action: Action): set<Tag> {
    set t | t in tokens && t.action == action :: t.tag
  }

  lemma RemoveAtFacts(list: seq<Tag>, k: nat)
    requires k < |list| && Distinct(list) && AllShort(list)
    ensures Distinct(RemoveAt(list, k)) && AllShort(RemoveAt(list, k))
    ensures Elements(RemoveAt(list, k)) == Elements(list) - {list[k]}
  {
    var r := RemoveAt(list, k);
    forall x | x in Elements(list) && x != list[k] ensures x in r {
      var i :| 0 <= i < |list| && list[i] == x;
      assert i == |list| - 1 ==> r[k] == x;
      assert i < |list| - 1 ==> r[i] == x;
    }
    forall x | x in r ensures x in list && x != list[k] {
      var i :| 0 <= i < |r| && r[i] == x;
    }
  }

  lemma {:induction false} NothingToRemove(list: seq<Tag>, tag: Tag, k: nat)
    requires tag !in list
    ensures RemoveFrom(list, tag, k) == list
    decreases |list| - k
  {
    if k < |list| {
      assert list[k] in list;
      NothingToRemove(list, tag, k + 1);
    }
  }

  lemma {:induction false} RemoveFromFacts(list: seq<Tag>, tag: Tag, k: nat)
    requires k <= |list| && Distinct(list) && AllShort(list) && tag !in list[..k]
    ensures var r := RemoveFrom(list, tag, k); Distinct(r) && AllShort(r) && Elements(r) == Elements(list) - {tag}
    decreases |list| - k
  {
    if k == |list| {
      assert list[..k] == list;
    } else if list[k] == tag {
      RemoveAtFacts(list, k);
      var r := RemoveAt(list, k);
      assert tag !in Elements(r);
      NothingToRemove(r, tag, k + 1);
    } else {
      assert list[..k + 1] == list[..k] + [list[k]];
      RemoveFromFacts(list, tag, k + 1);
    }
  }

  lemma {:induction false} RemoveAllFacts(list: seq<Tag>, tokens: seq<Token>)
    requires Distinct(list) && AllShort(list)
    ensures var r := RemoveAll(list, tokens);
            Distinct(r) && AllShort(r) && Elements(r) == Elements(list) - Named(tokens, Remove)
    decreases |tokens|
  {
    hide RemoveFrom, Distinct, AllShort;
    if tokens != [] {
      var t := tokens[0];
      assert tokens == [t] + tokens[1..];
      assert Named(tokens, Remove) == Named(tokens[1..], Remove) + (if t.action == Remove then {t.tag} else {});
      if t.action == Remove {
        RemoveFromFacts(list, t.tag, 0);
        RemoveAllFacts(RemoveFrom(list, t.tag, 0), tokens[1..]);
      } else {
        RemoveAllFacts(list, tokens[1..]);
      }
    } else {
      assert Named([], Remove) == {};
    }
  }

  /** The tags to add that are not yet known, in order. */
  function Fresh(known: seq<Tag>, tokens: seq<Token>): seq<Tag>
    decreases |tokens|
  {
    if tokens == [] then []
    else if tokens[0].action == Add && !Contains(known, tokens[0].tag) then [tokens[0].tag] + Fresh(known, tokens[1..])
    else Fresh(known, tokens[1..])
  }

  function Fitting(room: int, added: seq<Tag>): (r: seq<Tag>)
    ensures r <= added
  {
    if |added| <= room then added else if room <= 0 then [] else added[..room]
  }

  lemma {:induction false} AddAllFacts(list: seq<Tag>, known: nat, tokens: seq<Token>)
    requires known <= |list|
    ensures AddAll(list, known, tokens) == list + Fitting(MAX_NR_OF_RFID_TAGS - |list|, Fresh(list[..known], tokens))
    decreases |tokens|
  {
    if tokens != [] {
      var t := tokens[0];
      var added := Fresh(list[..known], tokens[1..]);
      var room := MAX_NR_OF_RFID_TAGS - |list|;
      hide Contains;
      if t.action == Add && !Contains(list[..known], t.tag) {
        assert Fresh(list[..known], tokens) == [t.tag] + added;
        if room > 0 {
          assert (list + [t.tag])[..known] == list[..known];
          AddAllFacts(list + [t.tag], known, tokens[1..]);
          assert Fitting(room, [t.tag] + added) == [t.tag] + Fitting(room - 1, added);
        } else {
          AddAllFacts(list, known, tokens[1..]);
        }
      } else {
        AddAllFacts(list, known, tokens[1..]);
        assert Fresh(list[..known], tokens) == added;
      }
    }
  }

  lemma ContainsIsIn(list: seq<Tag>, tag: Tag)
    requires AllShort(list)
    ensures Contains(list, tag) <==> tag in list
  {
    if tag in list {
      var i :| 0 <= i < |list| && list[i] == tag;
      assert Matches(list[i], tag);
    }
  }

  lemma ElementsOfJoined(a: seq<Tag>, b: seq<Tag>)
    ensures Elements(a + b) == Elements(a) + Elements(b)
  {}

  lemma {:induction false} FreshFacts(known: seq<Tag>, tokens: seq<Token>)
    requires AllShort(known)
    ensures Elements(Fresh(known, tokens)) == Named(tokens, Add) - Elements(known)
    decreases |tokens|
  {
    if tokens != [] {
      var t := tokens[0];
      FreshFacts(known, tokens[1..]);
      assert tokens == [t] + tokens[1..];
      assert Named(tokens, Add) == Named(tokens[1..], Add) + (if t.action == Add then {t.tag} else {});
      ContainsIsIn(known, t.tag);
      hide Contains, AllShort;
      ElementsOfJoined(if t.action == Add && !Contains(known, t.tag) then [t.tag] else [], Fresh(known, tokens[1..]));
    } else {
      assert Named([], Add) == {};
    }
  }

  /** The tags that a batch puts behind those that stay. */
  function Appended(list: seq<Tag>, tokens: seq<Token>): seq<Tag> {
    var rest := RemoveAll(list, tokens);
    Fitting(MAX_NR_OF_RFID_TAGS - |rest|, Fresh(rest, tokens))
  }

  /**
   * A batch takes the removed tags out of a duplicate-free table and puts the new ones behind, as
   * many as there is room for. The table stays duplicate-free exactly when those are distinct.
   */
  lemma UpdateFacts(list: seq<Tag>, tokens: seq<Token>)
    requires Distinct(list) && AllShort(list)
    ensures Elements(RemoveAll(list, tokens)) == Elements(list) - Named(tokens, Remove)
    ensures Updated(list, tokens) == RemoveAll(list, tokens) + Appended(list, tokens)
    ensures Elements(Appended(list, tokens)) <= Named(tokens, Add)
    ensures |list| <= MAX_NR_OF_RFID_TAGS ==> |Updated(list, tokens)| <= MAX_NR_OF_RFID_TAGS
    ensures Distinct(Updated(list, tokens)) <==> Distinct(Appended(list, tokens))
  {
    var rest, more := RemoveAll(list, tokens), Appended(list, tokens);
    RemoveAllFacts(list, tokens);
    assert rest[..|rest|] == rest;
    AddAllFacts(rest, |rest|, tokens);
    FreshFacts(rest, tokens);
    hide Distinct, AllShort, Fresh, RemoveAll, AddAll;
    ElementsOfPrefix(more, Fresh(rest, tokens));
    DistinctJoins(rest, more);
  }

  lemma ElementsOfPrefix(a: seq<Tag>, b: seq<Tag>)
    requires a <= b
    ensures Elements(a) <= Elements(b)
  {
    assert forall x | x in a :: x in b;
  }

  lemma DistinctJoins(a: seq<Tag>, b: seq<Tag>)
    requires Distinct(a) && Elements(a) !! Elements(b)
    ensures Distinct(a + b) <==> Distinct(b)
  {
    var all := a + b;
    if Distinct(all) {
      assert forall i | 0 <= i < |b| :: all[|a| + i] == b[i];
    }
    if Distinct(b) {
      forall i, j | 0 <= i < j < |all| ensures all[i] != all[j] {
        if i < |a| {
          assert all[i] in Elements(a);
          assert j >= |a| ==> all[j] in Elements(b);
        }
      }
    }
  }

  /** With room for all, the batch is the update of a set. */
  lemma UpdateIsSetUpdate(list: seq<Tag>, tokens: seq<Token>)
    requires Distinct(list) && AllShort(list)
    requires |RemoveAll(list, tokens)| + |Fresh(RemoveAll(list, tokens), tokens)| <= MAX_NR_OF_RFID_TAGS
    ensures Elements(Updated(list, tokens)) == Elements(list) - Named(tokens, Remove) + Named(tokens, Add)
  {
    var rest := RemoveAll(list, tokens);
    UpdateFacts(list, tokens);
    RemoveAllFacts(list, tokens);
    FreshFacts(rest, tokens);
    assert Appended(list, tokens) == Fresh(rest, tokens);
    ElementsOfJoined(rest, Fresh(rest, tokens));
    hide Elements, Named, Updated, Appended, RemoveAll, Fresh, Distinct, AllShort;
  }

  /** Who may charge after a batch. */
  lemma UpdateAuthorises(list: seq<Tag>, tokens: seq<Token>, tag: Tag)
    requires Distinct(list) && AllShort(list)
    requires forall t | t in tokens :: Short(t.tag)
    requires |RemoveAll(list, tokens)| + |Fresh(RemoveAll(list, tokens), tokens)| <= MAX_NR_OF_RFID_TAGS
    ensures var granted := Elements(list) - Named(tokens, Remove) + Named(tokens, Add);
            Authorises(Updated(list, tokens), tag) <==> WILDCARD in granted || tag in granted
  {
    var granted := Elements(list) - Named(tokens, Remove) + Named(tokens, Add);
    UpdateIsSetUpdate(list, tokens);
    hide Updated, RemoveAll, Fresh, Distinct, Authorises;
    forall x | x in granted ensures Short(x) {
      if x in Elements(list) {
        var i :| 0 <= i < |list| && list[i] == x;
      } else {
        assert x in Named(tokens, Add);
      }
    }
    hide Elements, Named;
    AuthorisesElements(Updated(list, tokens), tag);
  }

  lemma AuthorisesElements(list: seq<Tag>, tag: Tag)
    requires forall x | x in Elements(list) :: Short(x)
    ensures Authorises(list, tag) <==> WILDCARD in Elements(list) || tag in Elements(list)
  {
    if Authorises(list, tag) {
      var i :| 0 <= i < |list| && |list[i]| + 1 <= 50 && (list[i] == WILDCARD || list[i] == tag);
      assert list[i] in Elements(list);
    }
    forall i | 0 <= i < |list| ensures |list[i]| + 1 <= 50 {
      assert list[i] in Elements(list);
    }
  }

  // ----- batches that keep the table free of duplicates

  /** No tag is to be added twice. */
  predicate AddsDistinct(tokens: seq<Token>) {
    forall i, j :: 0 <= i < j < |tokens| && tokens[i].action == Add && tokens[j].action == Add
        ==> tokens[i].tag != tokens[j].tag
  }

  predicate ShortTokens(tokens: seq<Token>) {
    forall i :: 0 <= i < |tokens| && tokens[i].action == Add ==> Short(tokens[i].tag)
  }

  /** The tags of a table that a batch leaves in it. */
  function Left(list: seq<Tag>, tokens: seq<Token>): set<Tag> {
    Elements(list) - Named(tokens, Remove)
  }

  /** Token `i` brings a tag that the table does not keep. */
  predicate Brings(left: set<Tag>, tokens: seq<Token>, i: nat)
    requires i < |tokens|
  {
    tokens[i].action == Add && tokens[i].tag !in left
  }

  /** How many of the first tokens bring a tag. */
  function Brought(left: set<Tag>, tokens: seq<Token>): nat {
    if tokens == [] then 0
    else Brought(left, tokens[..|tokens| - 1]) + if Brings(left, tokens, |tokens| - 1) then 1 else 0
  }

  /** Two tokens bring the same tag, and there is still room for the second. */
  predicate Collide(left: set<Tag>, tokens: seq<Token>, i: nat, j: nat)
    requires i < j < |tokens|
  {
    Brings(left, tokens, i) && Brings(left, tokens, j) && tokens[i].tag == tokens[j].tag
    && |left| + Brought(left, tokens[..j]) < MAX_NR_OF_RFID_TAGS
  }

  predicate AddsTwice(list: seq<Tag>, tokens: seq<Token>) {
    exists i, j :: 0 <= i < j < |tokens| && Collide(Left(list, tokens), tokens, i, j)
  }

  /** The new tags, from the last token on. */
  lemma {:induction false} FreshSnoc(known: seq<Tag>, tokens: seq<Token>, t: Token)
    ensures Fresh(known, tokens + [t])
            == Fresh(known, tokens) + if t.action == Add && !Contains(known, t.tag) then [t.tag] else []
    decreases |tokens|
  {
    hide Contains;
    if tokens == [] {
      assert [t][1..] == [];
      assert tokens + [t] == [t];
    } else {
      FreshSnoc(known, tokens[1..], t);
      assert (tokens + [t])[1..] == tokens[1..] + [t] && (tokens + [t])[0] == tokens[0];
      var head := if tokens[0].action == Add && !Contains(known, tokens[0].tag) then [tokens[0].tag] else [];
      var last := if t.action == Add && !Contains(known, t.tag) then [t.tag] else [];
      var rest := Fresh(known, tokens[1..]);
      assert Fresh(known, tokens) == head + rest;
      assert Fresh(known, tokens + [t]) == head + (rest + last);
      hide Fresh;
      assert head + (rest + last) == head + rest + last;
    }
  }

  lemma {:induction false} FreshCounts(known: seq<Tag>, tokens: seq<Token>)
    requires AllShort(known)
    ensures |Fresh(known, tokens)| == Brought(Elements(known), tokens)
  {
    if tokens != [] {
      var front, t := tokens[..|tokens| - 1], tokens[|tokens| - 1];
      assert tokens == front + [t];
      FreshCounts(known, front);
      FreshSnoc(known, front, t);
      ContainsIsIn(known, t.tag);
    }
  }

  /** The tag that token `j` brings stands at the place of its count. */
  lemma {:induction false} FreshAt(known: seq<Tag>, tokens: seq<Token>, j: nat)
    requires AllShort(known) && j < |tokens| && Brings(Elements(known), tokens, j)
    ensures var k := Brought(Elements(known), tokens[..j]);
            k < |Fresh(known, tokens)| && Fresh(known, tokens)[k] == tokens[j].tag
  {
    var front, t := tokens[..|tokens| - 1], tokens[|tokens| - 1];
    assert tokens == front + [t];
    FreshSnoc(known, front, t);
    FreshCounts(known, front);
    ContainsIsIn(known, t.tag);
    if j < |front| {
      assert front[..j] == tokens[..j];
      FreshAt(known, front, j);
    }
  }

  /** And every place belongs to a token. */
  lemma {:induction false} FreshFrom(known: seq<Tag>, tokens: seq<Token>, k: nat) returns (j: nat)
    requires AllShort(known) && k < |Fresh(known, tokens)|
    ensures j < |tokens| && Brings(Elements(known), tokens, j)
    ensures Brought(Elements(known), tokens[..j]) == k && Fresh(known, tokens)[k] == tokens[j].tag
  {
    var front, t := tokens[..|tokens| - 1], tokens[|tokens| - 1];
    assert tokens == front + [t];
    FreshSnoc(known, front, t);
    FreshCounts(known, front);
    ContainsIsIn(known, t.tag);
    if k < |Fresh(known, front)| {
      j := FreshFrom(known, front, k);
      assert front[..j] == tokens[..j];
    } else {
      j := |front|;
      assert tokens[..j] == front;
    }
  }

  lemma {:induction false} BroughtGrows(left: set<Tag>, tokens: seq<Token>, i: nat, j: nat)
    requires i <= j <= |tokens|
    ensures Brought(left, tokens[..i]) <= Brought(left, tokens[..j])
    ensures i < j && Brings(left, tokens, i) ==> Brought(left, tokens[..i]) < Brought(left, tokens[..j])
    decreases j
  {
    if i < j {
      assert tokens[..j][..j - 1] == tokens[..j - 1];
      BroughtGrows(left, tokens, i, j - 1);
    }
  }

  lemma {:induction false} DistinctSize(list: seq<Tag>)
    requires Distinct(list)
    ensures |Elements(list)| == |list|
  {
    if list != [] {
      var front, last := list[..|list| - 1], list[|list| - 1];
      DistinctSize(front);
      assert list == front + [last];
      assert Elements(list) == Elements(front) + {last};
    }
  }

  /** A batch makes a duplicate exactly when two of its tokens bring the same tag and both fit. */
  lemma DuplicatesExactly(list: seq<Tag>, tokens: seq<Token>)
    requires Distinct(list) && AllShort(list)
    ensures Distinct(Updated(list, tokens)) <==> !AddsTwice(list, tokens)
  {
    var rest := RemoveAll(list, tokens);
    var left, all := Left(list, tokens), Fresh(rest, tokens);
    UpdateFacts(list, tokens);
    RemoveAllFacts(list, tokens);
    DistinctSize(rest);
    var room, more := MAX_NR_OF_RFID_TAGS - |rest|, Appended(list, tokens);
    hide Updated, RemoveAll, Fresh, Brought, Distinct, AllShort;
    if AddsTwice(list, tokens) {
      var i, j :| 0 <= i < j < |tokens| && Collide(left, tokens, i, j);
      FreshAt(rest, tokens, i);
      FreshAt(rest, tokens, j);
      BroughtGrows(left, tokens, i, j);
      NotDistinct(more, Brought(left, tokens[..i]), Brought(left, tokens[..j]));
    }
    if !Distinct(more) {
      var k, m := Repeated(more);
      var i := FreshFrom(rest, tokens, k);
      var j := FreshFrom(rest, tokens, m);
      if i > j {
        BroughtGrows(left, tokens, j, i);
      }
      assert Collide(left, tokens, i, j);
    }
  }

  lemma NotDistinct(list: seq<Tag>, k: nat, m: nat)
    requires k < m < |list| && list[k] == list[m]
    ensures !Distinct(list)
  {}

  lemma Repeated(list: seq<Tag>) returns (k: nat, m: nat)
    requires !Distinct(list)
    ensures k < m < |list| && list[k] == list[m]
  {
    k, m :| 0 <= k < m < |list| && list[k] == list[m];
  }

  /** Batches whose added tags are pairwise distinct keep the table duplicate-free, within bounds and readable. */
  lemma DistinctBatch(list: seq<Tag>, tokens: seq<Token>)
    requires Distinct(list) && AllShort(list) && |list| <= MAX_NR_OF_RFID_TAGS
    requires AddsDistinct(tokens) && ShortTokens(tokens)
    ensures Distinct(Updated(list, tokens)) && AllShort(Updated(list, tokens))
    ensures |Updated(list, tokens)| <= MAX_NR_OF_RFID_TAGS
  {
    DuplicatesExactly(list, tokens);
    UpdateFacts(list, tokens);
    RemoveAllFacts(list, tokens);
    var r, rest, more := Updated(list, tokens), RemoveAll(list, tokens), Appended(list, tokens);
    forall k | 0 <= k < |more| ensures Short(more[k]) {
      assert more[k] in Elements(more);
    }
    hide Updated, RemoveAll, Appended, Distinct;
    assert forall i | 0 <= i < |r| :: r[i] == if i < |rest| then rest[i] else more[i - |rest|];
  }

  // ----- any number of batches

  function RunBatches(list: seq<Tag>, batches: seq<seq<Token>>): seq<Tag>
    decreases |batches|
  {
    if batches == [] then list else RunBatches(Updated(list, batches[0]), batches[1..])
  }

  predicate Proper(tokens: seq<Token>) {
    AddsDistinct(tokens) && ShortTokens(tokens)
  }

  /** The set that the batches describe, and whether it ever exceeds the table. */
  function Described(tags: set<Tag>, batches: seq<seq<Token>>): set<Tag>
    decreases |batches|
  {
    if batches == [] then tags
    else Described(tags - Named(batches[0], Remove) + Named(batches[0], Add), batches[1..])
  }

  predicate Fits(tags: set<Tag>, batches: seq<seq<Token>>)
    decreases |batches|
  {
    batches == []
    || (var next := tags - Named(batches[0], Remove) + Named(batches[0], Add);
        |next| <= MAX_NR_OF_RFID_TAGS && Fits(next, batches[1..]))
  }

  /** With distinct additions, the room needed is the size of the updated set. */
  lemma RoomIsSetSize(list: seq<Tag>, tokens: seq<Token>)
    requires Distinct(list) && AllShort(list) && AddsDistinct(tokens)
    ensures |RemoveAll(list, tokens)| + |Fresh(RemoveAll(list, tokens), tokens)|
            == |Left(list, tokens) + Named(tokens, Add)|
  {
    var rest := RemoveAll(list, tokens);
    var all := Fresh(rest, tokens);
    RemoveAllFacts(list, tokens);
    FreshFacts(rest, tokens);
    FreshIsDistinct(rest, tokens);
    DistinctSize(rest);
    DistinctSize(all);
    hide RemoveAll, Fresh, Distinct, Elements, Named;
    assert Elements(rest) !! Elements(all);
    assert Elements(rest) + Elements(all) == Left(list, tokens) + Named(tokens, Add);
  }

  lemma FreshIsDistinct(known: seq<Tag>, tokens: seq<Token>)
    requires AllShort(known) && AddsDistinct(tokens)
    ensures Distinct(Fresh(known, tokens))
  {
    var all := Fresh(known, tokens);
    forall k, m | 0 <= k < m < |all| ensures all[k] != all[m] {
      var i := FreshFrom(known, tokens, k);
      var j := FreshFrom(known, tokens, m);
      assert i != j;
    }
  }

  /**
   * Over any number of batches, each without a tag added twice: the table stays duplicate-free and
   * holds at most 20 tags; where the described set always fits, it holds exactly that set, and a
   * tag is accepted exactly when it or the wildcard is in it.
   */
  lemma {:induction false} RunIsSetRun(list: seq<Tag>, batches: seq<seq<Token>>, tag: Tag)
    requires Distinct(list) && AllShort(list) && |list| <= MAX_NR_OF_RFID_TAGS
    requires forall i :: 0 <= i < |batches| ==> Proper(batches[i])
    ensures var r := RunBatches(list, batches); Distinct(r) && AllShort(r) && |r| <= MAX_NR_OF_RFID_TAGS
    ensures Fits(Elements(list), batches) ==> Elements(RunBatches(list, batches)) == Described(Elements(list), batches)
    ensures var set_ := Described(Elements(list), batches);
            Fits(Elements(list), batches) ==>
              (Authorises(RunBatches(list, batches), tag) <==> WILDCARD in set_ || tag in set_)
    decreases |batches|
  {
    if batches == [] {
      assert forall x | x in Elements(list) :: Short(x);
      AuthorisesElements(list, tag);
    } else {
      var tokens := batches[0];
      assert Proper(tokens);
      DistinctBatch(list, tokens);
      if Fits(Elements(list), batches) {
        RoomIsSetSize(list, tokens);
        UpdateIsSetUpdate(list, tokens);
      }
      hide Updated, Distinct, AllShort, RemoveAll, Fresh, Authorises, Proper;
      RunIsSetRun(Updated(list, tokens), batches[1..], tag);
    }
  }

  /** A tag given twice in one batch is stored twice, and then survives its removal. */
  lemma DuplicateSurvivesRemoval(tag: Tag)
    requires Short(tag)
    ensures var twice := Updated([], [Token(tag, Add), Token(tag, Add)]);
            twice == [tag, tag] && Updated(twice, [Token(tag, Remove)]) == [tag]
  {
    var add := Token(tag, Add);
    assert [add, add][1..] == [add] && [add][1..] == [];
    assert AddAll([], 0, [add, add]) == AddAll([tag], 0, [add]) == AddAll([tag, tag], 0, []);
    var remove := Token(tag, Remove);
    assert [remove][1..] == [];
    assert RemoveAt([tag, tag], 0) == [tag];
    assert RemoveFrom([tag, tag], tag, 0) == RemoveFrom([tag], tag, 1) == [tag];
    assert RemoveAll([tag, tag], [remove]) == RemoveAll([tag], []) == [tag];
    assert AddAll([tag], 1, [remove]) == AddAll([tag], 1, []) == [tag];
  }

  // ----- the code

  datatype Status = Ok | Failed

  /** The numbered keys hold exactly this list. */
  ghost predicate Holds(keys: map<nat, Tag>, list: seq<Tag>) {
    && (forall i: nat :: i in keys <==> i < |list|)
    && forall i: nat :: i < |list| ==> keys[i] == list[i]
  }

  ghost function ListOf(keys: map<nat, Tag>, n: nat): (list: seq<Tag>)
    requires forall i: nat :: i in keys <==> i < n
    ensures Holds(keys, list)
  {
    seq(n, i requires 0 <= i < n => keys[i])
  }

  function Erased(keys: map<nat, Tag>, k: nat): map<nat, Tag> {
    map i | i in keys && i != k :: keys[i]
  }

  /** Erasing a key and moving the last one into the gap removes one tag from the list. */
  lemma SwappedOut(keys: map<nat, Tag>, list: seq<Tag>, k: nat)
    requires Holds(keys, list) && k < |list|
    ensures var e, last := Erased(keys, k), |list| - 1;
            if k == last then Holds(e, RemoveAt(list, k))
            else last in e && Holds(Erased(e[k := e[last]], last), RemoveAt(list, k))
  {}

  class TagStore {
    /** The keys TagNr0, TagNr1, ... and NrOfTagsSaved. */
    var keys: map<nat, Tag>
    var saved: Option<nat>

    ghost function Count(): nat
      reads this
    {
      if saved.Some? then saved.value else 0
    }

    ghost predicate Valid()
      reads this
    {
      forall i: nat :: i in keys <==> i < Count()
    }

    ghost function Stored(): (list: seq<Tag>)
      requires Valid()
      reads this
      ensures Holds(keys, list)
    {
      ListOf(keys, Count())
    }

    constructor ()
      ensures Valid() && Stored() == []
    {
      keys := map[];
      saved := None;
    }

    /** The inner loop of the removal, for one token. */
    method RemoveTag(count: nat, tag: Tag, ghost list: seq<Tag>) returns (left: nat)
      requires Holds(keys, list) && count == |list|
      modifies this`keys
      ensures left == |RemoveFrom(list, tag, 0)| && Holds(keys, RemoveFrom(list, tag, 0))
    {
      hide RemoveAt, Erased;
      left := count;
      ghost var now := list;
      var k: nat := 0;
      while k < left
        invariant Holds(keys, now) && left == |now|
        invariant RemoveFrom(now, tag, k) == RemoveFrom(list, tag, 0)
        decreases left - k
      {
        if |keys[k]| + 1 <= DEFAULT_STR_SIZE + 4 && keys[k] == tag {
          SwappedOut(keys, now, k);
          keys := Erased(keys, k);
          left := left - 1;
          if k < left {
            keys := Erased(keys[k := keys[left]], left);
          }
          now := RemoveAt(now, k);
        }
        k := k + 1;
      }
    }

    method IsKnown(known: nat, tag: Tag, ghost list: seq<Tag>) returns (found: bool)
      requires Holds(keys, list) && known <= |list|
      ensures found == Contains(list[..known], tag)
    {
      var k: nat := 0;
      while k < known
        invariant k <= known
        invariant !Contains(list[..k], tag)
      {
        if |keys[k]| + 1 <= DEFAULT_STR_SIZE + 4 && keys[k] == tag {
          assert Matches(list[..known][k], tag);
          return true;
        }
        assert list[..k + 1] == list[..k] + [list[k]];
        k := k + 1;
      }
      return false;
    }

    method Update(tokens: seq<Token>) returns (status: Status)
      requires Valid()
      modifies this
      ensures Valid()
      ensures status == if old(Count()) > MAX_NR_OF_RFID_TAGS then Failed else Ok
      ensures Stored() == if status == Ok then Updated(old(Stored()), tokens) else old(Stored())
    {
      var count: nat := if saved.Some? then saved.value else 0;
      if count > 20 {
        return Failed;
      }
      ghost var before := Stored();
      ghost var list := before;
      if count > 0 {
        var t := 0;
        while t < |tokens|
          invariant 0 <= t <= |tokens|
          invariant Holds(keys, list) && count == |list|
          invariant RemoveAll(list, tokens[t..]) == RemoveAll(before, tokens)
          invariant saved == old(saved)
        {
          if tokens[t].action == Remove {
            count := RemoveTag(count, tokens[t].tag, list);
            list := RemoveFrom(list, tokens[t].tag, 0);
          }
          t := t + 1;
        }
      } else {
        NothingStored(tokens);
      }
      assert list == RemoveAll(before, tokens);
      var known := count;
      var t := 0;
      while t < |tokens|
        invariant 0 <= t <= |tokens|
        invariant Holds(keys, list) && count == |list| && known <= count
        invariant AddAll(list, known, tokens[t..]) == Updated(before, tokens)
      {
        if tokens[t].action == Add {
          var duplicate := IsKnown(known, tokens[t].tag, list);
          if !duplicate && count < MAX_NR_OF_RFID_TAGS {
            keys := keys[count := tokens[t].tag];
            count := count + 1;
            list := list + [tokens[t].tag];
          }
        }
        t := t + 1;
      }
      saved := Some(count);
      status := Ok;
    }

    method Lookup(tag: Tag) returns (granted: bool)
      requires Valid()
      ensures granted == Authorises(Stored(), tag)
    {
      var count: nat := if saved.Some? then saved.value else 0;
      var k: nat := 0;
      while k < count
        invariant k <= count
        invariant !Authorises(Stored()[..k], tag)
      {
        if |keys[k]| + 1 <= 50 && (keys[k] == WILDCARD || keys[k] == tag) {
          assert Stored()[k] == keys[k];
          return true;
        }
        assert Stored()[..k + 1] == Stored()[..k] + [keys[k]];
        k := k + 1;
      }
      assert Stored()[..k] == Stored();
      return false;
    }
  }

  lemma {:induction false} NothingStored(tokens: seq<Token>)
    ensures RemoveAll([], tokens) == []
    decreases |tokens|
  {
    if tokens != [] {
      NothingStored(tokens[1..]);
    }
  }
}
