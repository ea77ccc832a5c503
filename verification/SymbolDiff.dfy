/** The difference between two indexed Go files: changed functions, added methods, added, removed and changed types. */
module SymbolDiff {
  import opened Common
  import opened Text
  import opened Order

  datatype Param = Param(name: string, typ: string)
  datatype Func = Func(name: string, receiver: string, symbol: string, signature: string, params: seq<Param>)
  datatype Type = Type(name: string, symbol: string, structural: string)

  // What parsing a file yields: its top-level declarations in order, and the calls in it. A function without a
  // receiver has an empty one.
  datatype Decl =
    | FuncDecl(name: string, receiver: string, signature: string, params: seq<Param>)
    | TypeDecl(name: string, structural: string)
  datatype CallSite = Plain(name: string) | Selected(name: string)

  datatype File = File(pkg: string, decls: seq<Decl>, calls: seq<CallSite>)

  datatype Index = Index(pkg: string, funcs: map<string, Func>, types: map<string, Type>, calls: seq<CallSite>)

  datatype Change = Change(kind: string, symbol: string, callSites: nat, summary: string)

  function KeyOf(name: string, receiver: string): string {
    if receiver == "" then name else receiver + "." + name
  }

  /** Keys tell Go functions and methods apart: identifiers hold no dot, so two keys are equal only for the same receiver
      and name; a function's key is its name, a method's is qualified by its receiver. */
  lemma KeysTellApart(name: string, receiver: string, name': string, receiver': string)
    requires '.' !in name && '.' !in receiver && '.' !in name' && '.' !in receiver'
    ensures KeyOf(name, receiver) == KeyOf(name', receiver') <==> name == name' && receiver == receiver'
    ensures KeyOf(name, "") == name && (receiver != "" ==> KeyOf(name, receiver) == receiver + "." + name)
  {
    var a, b := KeyOf(name, receiver), KeyOf(name', receiver');
    DotAt(name, receiver);
    DotAt(name', receiver');
    assert a == b && receiver != "" ==> b[|receiver|] == '.';
    assert a == b && receiver' != "" ==> a[|receiver'|] == '.';
    if a == b && receiver != "" {
      assert a[..|receiver|] == receiver && b[..|receiver'|] == receiver';
      assert a[|receiver| + 1..] == name && b[|receiver'| + 1..] == name';
    }
  }

  /** The only dot of a key is the one after the receiver. */
  lemma DotAt(name: string, receiver: string)
    requires '.' !in name && '.' !in receiver
    ensures var key := KeyOf(name, receiver);
            forall i :: 0 <= i < |key| ==> (key[i] == '.' <==> receiver != "" && i == |receiver|)
  {
    var key := KeyOf(name, receiver);
    forall i | 0 <= i < |key| ensures key[i] == '.' <==> receiver != "" && i == |receiver| {
      if receiver != "" && i > |receiver| {
        assert key[i] == name[i - |receiver| - 1];
      } else if i < |receiver| {
        assert key[i] == receiver[i];
      }
    }
  }

  /** Indexes declarations; a later one replaces an earlier one with the same key. */
  function Indexed(pkg: string, decls: seq<Decl>, calls: seq<CallSite>): Index {
    if decls == [] then Index(pkg, map[], map[], calls)
    else
      var ix := Indexed(pkg, decls[..|decls| - 1], calls);
      match decls[|decls| - 1]
      case FuncDecl(name, receiver, signature, params) =>
        var key := KeyOf(name, receiver);
        ix.(funcs := ix.funcs[key := Func(name, receiver, pkg + "." + key, signature, params)])
      case TypeDecl(name, structural) =>
        ix.(types := ix.types[name := Type(name, pkg + "." + name, structural)])
  }

  function IndexOf(f: File): Index { Indexed(f.pkg, f.decls, f.calls) }

  /** Symbols are keys qualified by the package. */
  ghost predicate Qualified(ix: Index) {
    && (forall k <- ix.funcs :: ix.funcs[k].symbol == ix.pkg + "." + k)
    && (forall k <- ix.types :: ix.types[k].symbol == ix.pkg + "." + k && ix.types[k].name == k)
  }

  lemma {:induction false} IndexQualified(pkg: string, decls: seq<Decl>, calls: seq<CallSite>)
    ensures Qualified(Indexed(pkg, decls, calls)) && Indexed(pkg, decls, calls).pkg == pkg
  {
    if decls != [] { IndexQualified(pkg, decls[..|decls| - 1], calls); }
  }

  /** The key under which a declaration is indexed, functions and types apart. */
  function DeclKey(d: Decl): (bool, string) { if d.FuncDecl? then (true, KeyOf(d.name, d.receiver)) else (false, d.name) }

  /** Under every key lies its last declaration, and nothing else is indexed. */
  lemma {:induction false} LastDeclarationWins(pkg: string, decls: seq<Decl>, calls: seq<CallSite>, i: nat)
    requires i < |decls| && forall j :: i < j < |decls| ==> DeclKey(decls[j]) != DeclKey(decls[i])
    ensures var ix, key := Indexed(pkg, decls, calls), DeclKey(decls[i]).1;
            match decls[i]
            case FuncDecl(name, receiver, signature, params) =>
              key in ix.funcs && ix.funcs[key] == Func(name, receiver, pkg + "." + key, signature, params)
            case TypeDecl(name, structural) => name in ix.types && ix.types[name] == Type(name, pkg + "." + name, structural)
  {
    var last := |decls| - 1;
    if i < last {
      assert DeclKey(decls[last]) != DeclKey(decls[i]);
      LastDeclarationWins(pkg, decls[..last], calls, i);
    }
  }

  lemma {:induction false} IndexedIsDeclared(pkg: string, decls: seq<Decl>, calls: seq<CallSite>)
    ensures var ix := Indexed(pkg, decls, calls);
            && ix.calls == calls
            && (forall k <- ix.funcs :: exists i :: 0 <= i < |decls| && DeclKey(decls[i]) == (true, k))
            && (forall k <- ix.types :: exists i :: 0 <= i < |decls| && DeclKey(decls[i]) == (false, k))
  {
    if decls != [] {
      var front := decls[..|decls| - 1];
      IndexedIsDeclared(pkg, front, calls);
      assert forall i :: 0 <= i < |front| ==> front[i] == decls[i];
      assert DeclKey(decls[|front|]) == DeclKey(decls[|decls| - 1]);
    }
  }

  // ---------------------------------------------------------------- the added parameter

  function Types(params: seq<Param>): (r: seq<string>)
    ensures |r| == |params| && forall i :: 0 <= i < |r| ==> r[i] == params[i].typ
  {
    seq(|params|, i requires 0 <= i < |params| => params[i].typ)
  }

  function Without<T>(s: seq<T>, i: nat): seq<T>
    requires i < |s|
  {
    s[..i] + s[i + 1..]
  }

  predicate AddedAt(before: seq<Param>, after: seq<Param>, i: nat) {
    i < |after| && Types(Without(after, i)) == Types(before)
  }

  /** A parameter is the added one when all others keep their types and order, in lists one apart in length. */
  lemma AddedAtIff(before: seq<Param>, after: seq<Param>, i: nat)
    ensures AddedAt(before, after, i) <==>
            && i < |after| == |before| + 1
            && forall k :: 0 <= k < |before| ==> before[k].typ == after[if k < i then k else k + 1].typ
  {
    if i < |after| == |before| + 1 {
      var rest := Without(after, i);
      assert forall k :: 0 <= k < |before| ==> rest[k] == after[if k < i then k else k + 1];
      assert Types(rest) == Types(before) <==> forall k :: 0 <= k < |before| ==> Types(rest)[k] == Types(before)[k];
    } else if i < |after| {
      assert |Types(Without(after, i))| == |after| - 1;
    }
  }

  /** The first parameter at or after `from` whose removal makes the type lists equal. */
  function AddedParam(before: seq<Param>, after: seq<Param>, from: nat): (r: Option<Param>)
    requires from <= |after|
    ensures r.None? <==> forall i :: from <= i < |after| ==> !AddedAt(before, after, i)
    decreases |after| - from
  {
    if from == |after| then None
    else if AddedAt(before, after, from) then Some(after[from])
    else AddedParam(before, after, from + 1)
  }

  /** The parameter found is the first one whose removal works. */
  lemma {:induction false} AddedParamIsFirst(before: seq<Param>, after: seq<Param>, from: nat, i: nat)
    requires from <= i < |after| && AddedAt(before, after, i)
    requires forall k :: from <= k < i ==> !AddedAt(before, after, k)
    ensures AddedParam(before, after, from) == Some(after[i])
    decreases i - from
  {
    if from < i { AddedParamIsFirst(before, after, from + 1, i); }
  }

  /** Walks both lists side by side, skipping position `i` of the longer one. */
  method MatchesWithout(before: seq<Param>, after: seq<Param>, i: nat) returns (matched: bool)
    requires |after| == |before| + 1 && i < |after|
    ensures matched == AddedAt(before, after, i)
  {
    matched := true;
    var bi, ai := 0, 0;
    ghost var rest := Without(after, i);
    while bi < |before| && ai < |after|
      invariant 0 <= bi <= |before| && ai == if ai <= i then bi else bi + 1
      invariant forall k :: 0 <= k < bi ==> before[k].typ == rest[k].typ
      decreases |before| - bi, |after| - ai
    {
      if ai == i {
        ai := ai + 1;
        continue;
      }
      assert rest[bi] == after[ai];
      if before[bi].typ != after[ai].typ {
        assert Types(rest)[bi] != Types(before)[bi];
        return false;
      }
      bi := bi + 1;
      ai := ai + 1;
    }
    assert Types(rest) == Types(before);
  }

  method DetectAddedParam(before: seq<Param>, after: seq<Param>) returns (r: Option<Param>)
    ensures r == AddedParam(before, after, 0)
  {
    if |after| != |before| + 1 {
      assert forall i :: 0 <= i < |after| ==> |Types(Without(after, i))| == |after| - 1;
      return None;
    }
    for i := 0 to |after|
      invariant AddedParam(before, after, 0) == AddedParam(before, after, i)
    {
      var candidate := after[i];
      var matched := MatchesWithout(before, after, i);
      if matched { return Some(candidate); }
    }
    return None;
  }

  // ---------------------------------------------------------------- changes

  function TrimPrefix(s: string, prefix: string): string { if HasPrefix(s, prefix) then s[|prefix|..] else s }

  function CallSites(calls: seq<CallSite>, f: Func): nat {
    if calls == [] then 0
    else
      var site := calls[|calls| - 1];
      var hit := if f.receiver == "" then site == Plain(f.name) else site == Selected(f.name);
      CallSites(calls[..|calls| - 1], f) + if hit then 1 else 0
  }

  function SignatureSummary(before: Func, after: Func): string {
    var extra := AddedParam(before.params, after.params, 0);
    var changed := "func " + after.name + " signature changed";
    if extra.None? then changed
    else changed + ": added param " + (if extra.value.name != "" then extra.value.name + " " else "") + extra.value.typ
  }

  function TypeSummary(name: string, before: Type): string {
    if HasPrefix(before.structural, "struct{") || HasPrefix(before.structural, "interface{")
    then "type " + name + " fields changed" else "type " + name + " definition changed"
  }

  // What each of the four passes says about one name.
  function SignatureChange(b: Index, a: Index, name: string): Option<Change> {
    if name !in b.funcs || name !in a.funcs || b.funcs[name].signature == a.funcs[name].signature then None
    else Some(Change("func_signature", a.funcs[name].symbol, CallSites(a.calls, a.funcs[name]),
                     SignatureSummary(b.funcs[name], a.funcs[name])))
  }

  function MethodAdded(b: Index, a: Index, name: string): Option<Change> {
    if name !in a.funcs || a.funcs[name].receiver == "" || name in b.funcs then None
    else
      var pkg := if a.pkg == "" then b.pkg else a.pkg;
      Some(Change("method_added", a.funcs[name].symbol, CallSites(a.calls, a.funcs[name]),
                  "method " + TrimPrefix(a.funcs[name].symbol, pkg + ".") + " added"))
  }

  function TypeAdded(b: Index, a: Index, name: string): Option<Change> {
    if name !in a.types || name in b.types then None
    else Some(Change("type_added", a.types[name].symbol, 0, "type " + name + " added"))
  }

  function TypeGoneOrChanged(b: Index, a: Index, name: string): Option<Change> {
    if name !in b.types then None
    else if name !in a.types then Some(Change("type_removed", b.types[name].symbol, 0, "type " + name + " removed"))
    else if b.types[name].structural == a.types[name].structural then None
    else Some(Change("field_changed", a.types[name].symbol, 0, TypeSummary(name, b.types[name])))
  }

  /** The changes from `b` to `a`, each named by the pass and the declaration it comes from. */
  ghost predicate IsChange(b: Index, a: Index, c: Change) {
    || (exists k <- b.funcs :: SignatureChange(b, a, k) == Some(c))
    || (exists k <- a.funcs :: MethodAdded(b, a, k) == Some(c))
    || (exists k <- a.types :: TypeAdded(b, a, k) == Some(c))
    || (exists k <- b.types :: TypeGoneOrChanged(b, a, k) == Some(c))
  }

  /** The sort order: by symbol, then by kind. */
  predicate Before(x: Change, y: Change) {
    if x.symbol == y.symbol then Less(x.kind, y.kind) else Less(x.symbol, y.symbol)
  }

  lemma BeforeOrders()
    ensures StrictOrder(Before)
    ensures forall x: Change, y: Change :: x.symbol != y.symbol || x.kind != y.kind ==> Before(x, y) || Before(y, x)
  {
    StringsOrdered();
  }

  // ---------------------------------------------------------------- the differ

  /** One pass over the names of a map, in whatever order they come. */
  method Collect(keys: set<string>, change: string -> Option<Change>) returns (out: seq<Change>)
    requires forall j <- keys, k <- keys :: j != k && change(j).Some? && change(k).Some? ==>
               change(j).value.symbol != change(k).value.symbol || change(j).value.kind != change(k).value.kind
    ensures Comparable(Before, out)
    ensures forall c :: c in out <==> exists k <- keys :: change(k) == Some(c)
  {
    BeforeOrders();
    out := [];
    var todo := keys;
    while todo != {}
      invariant todo <= keys && Comparable(Before, out)
      invariant forall c :: c in out <==> exists k <- keys - todo :: change(k) == Some(c)
      decreases todo
    {
      hide Before;
      var name :| name in todo;
      var c := change(name);
      if c.Some? {
        assert forall x <- out :: Before(x, c.value) || Before(c.value, x);
        out := out + [c.value];
      }
      todo := todo - {name};
    }
  }

  lemma QualifyInjective(pkg: string, j: string, k: string)
    requires pkg + "." + j == pkg + "." + k
    ensures j == k
  {
    assert (pkg + "." + j)[|pkg| + 1..] == j && (pkg + "." + k)[|pkg| + 1..] == k;
  }

  /** Different names give changes that differ in symbol or in kind. */
  predicate Apart(x: Option<Change>, y: Option<Change>) {
    x.Some? && y.Some? ==> x.value.symbol != y.value.symbol || x.value.kind != y.value.kind
  }

  lemma PassesApart(b: Index, a: Index, j: string, k: string)
    requires Qualified(b) && Qualified(a) && j != k
    ensures Apart(SignatureChange(b, a, j), SignatureChange(b, a, k))
    ensures Apart(MethodAdded(b, a, j), MethodAdded(b, a, k))
    ensures Apart(TypeAdded(b, a, j), TypeAdded(b, a, k))
    ensures Apart(TypeGoneOrChanged(b, a, j), TypeGoneOrChanged(b, a, k))
  {
    hide CallSites, SignatureSummary, TypeSummary, TrimPrefix;
    if a.pkg + "." + j == a.pkg + "." + k { QualifyInjective(a.pkg, j, k); }
    if b.pkg + "." + j == b.pkg + "." + k { QualifyInjective(b.pkg, j, k); }
  }

  ghost predicate OfKinds(s: seq<Change>, kinds: set<string>) { forall c <- s :: c.kind in kinds }

  lemma JoinComparable(s: seq<Change>, t: seq<Change>, sKinds: set<string>, tKinds: set<string>)
    requires Comparable(Before, s) && Comparable(Before, t)
    requires OfKinds(s, sKinds) && OfKinds(t, tKinds) && sKinds !! tKinds
    ensures Comparable(Before, s + t) && OfKinds(s + t, sKinds + tKinds)
  {
    BeforeOrders();
    hide Before;
    assert forall x <- s, y <- t :: x.kind != y.kind;
  }

  lemma KindsDiffer()
    ensures "method_added" != "type_removed"
    ensures {"func_signature"} !! {"method_added"} && {"func_signature", "method_added"} !! {"type_added"}
    ensures {"func_signature", "method_added", "type_added"} !! {"type_removed", "field_changed"}
  {
    assert "method_added"[0] != "type_removed"[0];
  }

  /** `s` holds what one pass finds under the given names. */
  ghost predicate Found(s: seq<Change>, keys: set<string>, change: string -> Option<Change>) {
    forall c :: c in s <==> exists k <- keys :: change(k) == Some(c)
  }

  method Passes(b: Index, a: Index) returns (p1: seq<Change>, p2: seq<Change>, p3: seq<Change>, p4: seq<Change>)
    requires Qualified(b) && Qualified(a)
    ensures Comparable(Before, p1) && Comparable(Before, p2) && Comparable(Before, p3) && Comparable(Before, p4)
    ensures Found(p1, b.funcs.Keys, k => SignatureChange(b, a, k)) && Found(p2, a.funcs.Keys, k => MethodAdded(b, a, k))
    ensures Found(p3, a.types.Keys, k => TypeAdded(b, a, k)) && Found(p4, b.types.Keys, k => TypeGoneOrChanged(b, a, k))
  {
    hide Qualified, SignatureChange, MethodAdded, TypeAdded, TypeGoneOrChanged, Before, Comparable;
    forall j, k | j != k
      ensures Apart(SignatureChange(b, a, j), SignatureChange(b, a, k))
      ensures Apart(MethodAdded(b, a, j), MethodAdded(b, a, k))
      ensures Apart(TypeAdded(b, a, j), TypeAdded(b, a, k))
      ensures Apart(TypeGoneOrChanged(b, a, j), TypeGoneOrChanged(b, a, k))
    {
      PassesApart(b, a, j, k);
    }
    p1 := Collect(b.funcs.Keys, k => SignatureChange(b, a, k));
    p2 := Collect(a.funcs.Keys, k => MethodAdded(b, a, k));
    p3 := Collect(a.types.Keys, k => TypeAdded(b, a, k));
    p4 := Collect(b.types.Keys, k => TypeGoneOrChanged(b, a, k));
  }

  lemma PassesJoined(b: Index, a: Index, p1: seq<Change>, p2: seq<Change>, p3: seq<Change>, p4: seq<Change>)
    requires Comparable(Before, p1) && Comparable(Before, p2) && Comparable(Before, p3) && Comparable(Before, p4)
    requires Found(p1, b.funcs.Keys, k => SignatureChange(b, a, k)) && Found(p2, a.funcs.Keys, k => MethodAdded(b, a, k))
    requires Found(p3, a.types.Keys, k => TypeAdded(b, a, k)) && Found(p4, b.types.Keys, k => TypeGoneOrChanged(b, a, k))
    ensures Comparable(Before, p1 + p2 + p3 + p4)
    ensures forall c :: c in p1 + p2 + p3 + p4 <==> IsChange(b, a, c)
  {
    KindsDiffer();
    hide Before, Comparable, CallSites, SignatureSummary, TypeSummary, TrimPrefix;
    JoinComparable(p1, p2, {"func_signature"}, {"method_added"});
    JoinComparable(p1 + p2, p3, {"func_signature", "method_added"}, {"type_added"});
    JoinComparable(p1 + p2 + p3, p4, {"func_signature", "method_added", "type_added"}, {"type_removed", "field_changed"});
  }

  /** The changes between two files, sorted. `identical` says that their bytes were equal. */
  method Diff(before: File, after: File, identical: bool) returns (changes: seq<Change>)
    requires identical ==> before == after
    ensures Ascending(Before, changes)
    ensures forall c :: c in changes <==> IsChange(IndexOf(before), IndexOf(after), c)
  {
    var b, a := IndexOf(before), IndexOf(after);
    if identical {
      NoChangeIff(a, a);
      return [];
    }
    IndexQualified(before.pkg, before.decls, before.calls);
    IndexQualified(after.pkg, after.decls, after.calls);
    hide IndexOf, Qualified, Before, Found, IsChange;
    var p1, p2, p3, p4 := Passes(b, a);
    PassesJoined(b, a, p1, p2, p3, p4);
    BeforeOrders();
    changes := Sort(Before, p1 + p2 + p3 + p4);
  }

  // ---------------------------------------------------------------- results

  /** Common functions keep their signatures, no method is new, and the types are the same ones with the same
      structure. */
  ghost predicate Unchanged(b: Index, a: Index) {
    && (forall k <- b.funcs :: k in a.funcs ==> b.funcs[k].signature == a.funcs[k].signature)
    && (forall k <- a.funcs :: a.funcs[k].receiver != "" ==> k in b.funcs)
    && a.types.Keys == b.types.Keys
    && (forall k <- b.types :: k in a.types ==> b.types[k].structural == a.types[k].structural)
  }

  /** A declaration on which some pass has something to report. */
  ghost predicate Noticed(b: Index, a: Index, k: string) {
    || SignatureChange(b, a, k).Some? || MethodAdded(b, a, k).Some?
    || TypeAdded(b, a, k).Some? || TypeGoneOrChanged(b, a, k).Some?
  }

  lemma NoticedIsReported(b: Index, a: Index, k: string)
    requires Noticed(b, a, k)
    ensures exists c :: IsChange(b, a, c)
  {
    hide CallSites, SignatureSummary, TypeSummary, TrimPrefix;
    var c := if SignatureChange(b, a, k).Some? then SignatureChange(b, a, k).value
             else if MethodAdded(b, a, k).Some? then MethodAdded(b, a, k).value
             else if TypeAdded(b, a, k).Some? then TypeAdded(b, a, k).value
             else TypeGoneOrChanged(b, a, k).value;
    assert IsChange(b, a, c);
  }

  /** Nothing is reported exactly when nothing changed; so the early return for equal bytes changes no answer. */
  lemma NoChangeIff(b: Index, a: Index)
    ensures (forall c :: !IsChange(b, a, c)) <==> Unchanged(b, a)
  {
    hide CallSites, SignatureSummary, TypeSummary, TrimPrefix;
    if forall c :: !IsChange(b, a, c) {
      forall k ensures !Noticed(b, a, k) {
        if Noticed(b, a, k) { NoticedIsReported(b, a, k); }
      }
      forall k <- a.types ensures k in b.types { assert !Noticed(b, a, k); }
      forall k <- b.types ensures k in a.types && b.types[k].structural == a.types[k].structural {
        assert !Noticed(b, a, k);
      }
      forall k <- b.funcs ensures k in a.funcs ==> b.funcs[k].signature == a.funcs[k].signature {
        assert !Noticed(b, a, k);
      }
      forall k <- a.funcs ensures a.funcs[k].receiver != "" ==> k in b.funcs { assert !Noticed(b, a, k); }
    }
  }

  // ---------------------------------------------------------------- what a change says

  /** The calls counted are all occurrences of the function's name: plain calls for a function, selected ones for a method. */
  lemma {:induction false} CallSitesCounted(calls: seq<CallSite>, f: Func)
    ensures CallSites(calls, f) == multiset(calls)[if f.receiver == "" then Plain(f.name) else Selected(f.name)]
  {
    if calls != [] {
      CallSitesCounted(calls[..|calls| - 1], f);
      assert calls == calls[..|calls| - 1] + [calls[|calls| - 1]];
    }
  }

  /** The text of a changed signature names the first parameter whose removal restores the old types, if there is one. */
  lemma SignatureText(before: Func, after: Func, i: nat)
    ensures (forall k :: 0 <= k < |after.params| ==> !AddedAt(before.params, after.params, k)) ==>
              SignatureSummary(before, after) == "func " + after.name + " signature changed"
    ensures AddedAt(before.params, after.params, i) && (forall k :: 0 <= k < i ==> !AddedAt(before.params, after.params, k)) ==>
              var p := after.params[i];
              SignatureSummary(before, after) ==
              "func " + after.name + " signature changed" + ": added param " + (if p.name == "" then "" else p.name + " ") + p.typ
  {
    hide AddedAt;
    if AddedAt(before.params, after.params, i) && forall k :: 0 <= k < i ==> !AddedAt(before.params, after.params, k) {
      assert i < |after.params| by { AddedAtInRange(before.params, after.params, i); }
      AddedParamIsFirst(before.params, after.params, 0, i);
    }
  }

  lemma AddedAtInRange(before: seq<Param>, after: seq<Param>, i: nat)
    requires AddedAt(before, after, i)
    ensures i < |after|
  {
  }

  /** Every reported change, by its kind: whose it is, how many calls it concerns, and its text. */
  lemma ChangeSays(b: Index, a: Index, c: Change)
    requires Qualified(b) && Qualified(a) && IsChange(b, a, c)
    ensures c.kind in {"func_signature", "method_added", "type_added", "type_removed", "field_changed"}
    ensures c.kind in {"func_signature", "method_added"} ==>
              exists k <- a.funcs :: Names(a, k, c) && (c.kind == "func_signature" ==>
                k in b.funcs && a.funcs[k].signature != b.funcs[k].signature
                && c.summary == SignatureSummary(b.funcs[k], a.funcs[k]))
    ensures c.kind == "method_added" ==>
              exists k <- a.funcs :: Names(a, k, c) && k !in b.funcs && a.funcs[k].receiver != ""
                && (a.pkg != "" ==> c.summary == "method " + k + " added")
    ensures c.kind in {"type_added", "type_removed", "field_changed"} ==>
              && c.callSites == 0
              && exists k <- a.types.Keys + b.types.Keys :: TypeSays(b, a, k, c)
  {
    KindsDiffer();
    hide SignatureChange, MethodAdded, TypeAdded, TypeGoneOrChanged, SignatureSummary, Names, TypeSays;
    if k :| k in b.funcs && SignatureChange(b, a, k) == Some(c) {
      SignatureSays(b, a, k, c);
    } else if k :| k in a.funcs && MethodAdded(b, a, k) == Some(c) {
      MethodSays(b, a, k, c);
    } else if k :| k in a.types && TypeAdded(b, a, k) == Some(c) {
      TypePassSays(b, a, k, c);
    } else {
      var k :| k in b.types && TypeGoneOrChanged(b, a, k) == Some(c);
      TypePassSays(b, a, k, c);
    }
  }

  lemma SignatureSays(b: Index, a: Index, k: string, c: Change)
    requires Qualified(a) && k in b.funcs && SignatureChange(b, a, k) == Some(c)
    ensures c.kind == "func_signature" && Names(a, k, c) && k in a.funcs && a.funcs[k].signature != b.funcs[k].signature
    ensures c.summary == SignatureSummary(b.funcs[k], a.funcs[k])
  {
    hide SignatureSummary;
    if k in a.funcs { CallSitesCounted(a.calls, a.funcs[k]); }
  }

  lemma MethodSays(b: Index, a: Index, k: string, c: Change)
    requires Qualified(a) && k in a.funcs && MethodAdded(b, a, k) == Some(c)
    ensures c.kind == "method_added" && Names(a, k, c) && k !in b.funcs && a.funcs[k].receiver != ""
    ensures a.pkg != "" ==> c.summary == "method " + k + " added"
  {
    CallSitesCounted(a.calls, a.funcs[k]);
    assert (a.pkg + "." + k)[..|a.pkg + "."|] == a.pkg + ".";
    assert (a.pkg + "." + k)[|a.pkg + "."|..] == k;
  }

  lemma TypePassSays(b: Index, a: Index, k: string, c: Change)
    requires Qualified(b) && Qualified(a)
    requires (k in a.types && TypeAdded(b, a, k) == Some(c)) || (k in b.types && TypeGoneOrChanged(b, a, k) == Some(c))
    ensures TypeSays(b, a, k, c) && c.callSites == 0 && c.kind in {"type_added", "type_removed", "field_changed"}
  {
  }

  /** A change about the function `k` of the new file, with all its calls there. */
  ghost predicate Names(a: Index, k: string, c: Change) {
    && k in a.funcs && c.symbol == a.pkg + "." + k
    && c.callSites == multiset(a.calls)[if a.funcs[k].receiver == "" then Plain(a.funcs[k].name) else Selected(a.funcs[k].name)]
  }

  /** A change about the type `k`. */
  ghost predicate TypeSays(b: Index, a: Index, k: string, c: Change) {
    if k !in b.types then c.kind == "type_added" && c.symbol == a.pkg + "." + k && c.summary == "type " + k + " added"
    else if k !in a.types then
      c.kind == "type_removed" && c.symbol == b.pkg + "." + k && c.summary == "type " + k + " removed"
    else
      && c.kind == "field_changed" && c.symbol == a.pkg + "." + k
      && c.summary == "type " + k + (if "struct{" <= b.types[k].structural || "interface{" <= b.types[k].structural
                                     then " fields changed" else " definition changed")
  }

  /** Whatever order the maps were walked in, the answer is the same. */
  lemma DiffDeterministic(before: File, after: File, r: seq<Change>, s: seq<Change>)
    requires Ascending(Before, r) && forall c :: c in r <==> IsChange(IndexOf(before), IndexOf(after), c)
    requires Ascending(Before, s) && forall c :: c in s <==> IsChange(IndexOf(before), IndexOf(after), c)
    ensures r == s
  {
    hide IsChange, Before;
    BeforeOrders();
    AscendingUnique(Before, r, s);
  }

  lemma AddedTypes(b: Index, a: Index, symbol: string)
    ensures (exists c :: IsChange(b, a, c) && c.kind == "type_added" && c.symbol == symbol)
            <==> exists k <- a.types :: k !in b.types && a.types[k].symbol == symbol
  {
    hide CallSites, SignatureSummary, TypeSummary, TrimPrefix;
    if k :| k in a.types && k !in b.types && a.types[k].symbol == symbol {
      assert IsChange(b, a, TypeAdded(b, a, k).value);
    }
  }

  lemma RemovedTypes(b: Index, a: Index, symbol: string)
    ensures (exists c :: IsChange(b, a, c) && c.kind == "type_removed" && c.symbol == symbol)
            <==> exists k <- b.types :: k !in a.types && b.types[k].symbol == symbol
  {
    hide CallSites, SignatureSummary, TypeSummary, TrimPrefix;
    KindsDiffer();
    if k :| k in b.types && k !in a.types && b.types[k].symbol == symbol {
      assert IsChange(b, a, TypeGoneOrChanged(b, a, k).value);
    }
  }

  /** A type is added in one direction exactly when it is removed in the other. */
  lemma AddedIsRemovedBackwards(b: Index, a: Index, symbol: string)
    ensures (exists c :: IsChange(b, a, c) && c.kind == "type_added" && c.symbol == symbol)
            <==> (exists c :: IsChange(a, b, c) && c.kind == "type_removed" && c.symbol == symbol)
  {
    hide IsChange;
    AddedTypes(b, a, symbol);
    RemovedTypes(a, b, symbol);
  }
}
