/** The manifest of newfs_o2fs (sbin/newfs_o2fs/newfs_o2fs.c): the tree it describes, its
    token form, and the scanner. */
module Manifest {
  import opened Common
  import opened O2fsLayout

  datatype Tree = File(path: Str, data: seq<Byte>) | Dir(items: seq<Item>)
  datatype Item = Item(name: Str, tree: Tree)

  const T_DIR: Str := [0x44, 0x49, 0x52]
  const T_END: Str := [0x45, 0x4E, 0x44]
  const T_FILE: Str := [0x46, 0x49, 0x4C, 0x45]

  function UnparseItem(i: Item): seq<Str> {
    match i.tree
    case File(path, _) => [T_FILE, i.name, path]
    case Dir(sub) => [T_DIR, i.name] + Unparse(sub) + [T_END]
  }

  /** The tokens of a directory's items. */
  function Unparse(items: seq<Item>): seq<Str> {
    if items == [] then [] else UnparseItem(items[0]) + Unparse(items[1..])
  }

  lemma {:induction false} UnparseAppend(items: seq<Item>, i: Item)
    ensures Unparse(items + [i]) == Unparse(items) + UnparseItem(i)
  {
    if items == [] {
      assert items + [i] == [i];
      assert Unparse([i]) == UnparseItem(i) + [];
    } else {
      UnparseAppend(items[1..], i);
      assert (items + [i])[1..] == items[1..] + [i];
    }
  }

  /** The files a tree names are the host's. */
  ghost predicate FromHost(items: seq<Item>, host: map<Str, seq<Byte>>)
    decreases items
  {
    forall e :: 0 <= e < |items| ==> ItemFromHost(items[e], host)
  }

  ghost predicate ItemFromHost(i: Item, host: map<Str, seq<Byte>>)
    decreases i
  {
    match i.tree
    case File(path, data) => path in host && host[path] == data
    case Dir(sub) => FromHost(sub, host)
  }

  /** Different trees have different token forms: the tokens up to the closing END, and the
      host's files, determine the items. */
  lemma {:induction false} UnparseUnique(a: seq<Item>, b: seq<Item>, x: seq<Str>, y: seq<Str>,
          host: map<Str, seq<Byte>>)
    requires FromHost(a, host) && FromHost(b, host)
    requires Unparse(a) + [T_END] + x == Unparse(b) + [T_END] + y
    ensures a == b && x == y
    decreases a
  {
    Heads(a, x);
    Heads(b, y);
    if a == [] {
      assert Unparse(a) + [T_END] + x == [T_END] + x;
      assert b == [];
      assert Unparse(b) + [T_END] + y == [T_END] + y;
      assert x == ([T_END] + x)[1..] == ([T_END] + y)[1..] == y;
    } else {
      var s := Unparse(a) + [T_END] + x;
      assert b != [];
      assert s[0] == UnparseItem(a[0])[0] == UnparseItem(b[0])[0];
      assert s[1] == a[0].name == b[0].name;
      var ra, rb := Unparse(a[1..]) + [T_END] + x, Unparse(b[1..]) + [T_END] + y;
      assert s == UnparseItem(a[0]) + ra;
      assert s == UnparseItem(b[0]) + rb;
      assert ItemFromHost(a[0], host) && ItemFromHost(b[0], host);
      if a[0].tree.File? {
        assert s[2] == a[0].tree.path == b[0].tree.path;
        assert ra == s[3..] == rb;
      } else {
        DirTokens(a[0].name, a[0].tree.items, ra);
        DirTokens(b[0].name, b[0].tree.items, rb);
        UnparseUnique(a[0].tree.items, b[0].tree.items, ra, rb, host);
      }
      TailFromHost(a, host);
      TailFromHost(b, host);
      UnparseUnique(a[1..], b[1..], x, y, host);
      assert a == [a[0]] + a[1..] && b == [b[0]] + b[1..];
    }
  }

  lemma DirTokens(name: Str, sub: seq<Item>, rest: seq<Str>)
    ensures (UnparseItem(Item(name, Dir(sub))) + rest)[2..] == Unparse(sub) + [T_END] + rest
  {
    hide Unparse;
  }

  lemma TailFromHost(items: seq<Item>, host: map<Str, seq<Byte>>)
    requires items != [] && FromHost(items, host)
    ensures FromHost(items[1..], host)
  {}

  lemma Heads(a: seq<Item>, x: seq<Str>)
    ensures a == [] <==> (Unparse(a) + [T_END] + x)[0] == T_END
    ensures a != [] ==> |Unparse(a)| >= 3 && Unparse(a)[0] == UnparseItem(a[0])[0] && Unparse(a)[1] == a[0].name
    ensures a != [] ==>
      (Unparse(a)[0] == T_FILE <==> a[0].tree.File?) && (a[0].tree.File? ==> Unparse(a)[2] == a[0].tree.path)
  {}

  /** Names are strings. */
  ghost predicate Named(t: Tree)
    decreases t
  {
    match t
    case File(_, _) => true
    case Dir(items) => forall e :: 0 <= e < |items| ==> IsStr(items[e].name) && Named(items[e].tree)
  }

  /** The names of a tree are tokens of its token form. */
  lemma {:induction false} UnparseNamed(items: seq<Item>)
    requires forall t :: t in Unparse(items) ==> IsStr(t)
    ensures Named(Dir(items))
    decreases items
  {
    if items != [] {
      var head, tail := UnparseItem(items[0]), Unparse(items[1..]);
      assert forall t :: t in head ==> t in Unparse(items);
      assert forall t :: t in tail ==> t in Unparse(items);
      UnparseNamed(items[1..]);
      assert IsStr(head[1]);
      if items[0].tree.Dir? {
        assert forall t :: t in Unparse(items[0].tree.items) ==> t in head;
        UnparseNamed(items[0].tree.items);
      }
      assert forall e :: 1 <= e < |items| ==> items[e] == items[1..][e - 1];
    }
  }

  // ---------------------------------------------------------------- the scanner

  const TOKEN_MAX: nat := 512

  predicate IsSpace(c: Byte) {
    c == 0x20 || c == 0x09 || c == 0x0A || c == 0x0D
  }

  function SkipSpaces(text: Str, i: nat): (j: nat)
    requires i <= |text|
    ensures i <= j <= |text| && (j < |text| ==> !IsSpace(text[j]))
    decreases |text| - i
  {
    if i < |text| && IsSpace(text[i]) then SkipSpaces(text, i + 1) else i
  }

  function TokenEnd(text: Str, i: nat): (j: nat)
    requires i <= |text|
    ensures i <= j <= |text| && (i < |text| && !IsSpace(text[i]) ==> i < j)
    decreases |text| - i
  {
    if i < |text| && !IsSpace(text[i]) then TokenEnd(text, i + 1) else i
  }

  /** The tokens of the text from i on: its maximal runs without white space. */
  function Tokens(text: Str, i: nat): seq<Str>
    requires i <= |text|
    decreases |text| - i
  {
    var j := SkipSpaces(text, i);
    if j == |text| then [] else [text[j..TokenEnd(text, j)]] + Tokens(text, TokenEnd(text, j))
  }

  /** The manifest is a C string: what follows a zero byte is not read. */
  function CString(raw: Str): (s: Str)
    ensures IsStr(s) && s <= raw && (|s| < |raw| ==> raw[|s|] == 0)
  {
    if raw == [] || raw[0] == 0 then [] else [raw[0]] + CString(raw[1..])
  }

  lemma {:induction false} TokensAreStr(text: Str, i: nat)
    requires IsStr(text) && i <= |text|
    ensures forall t :: t in Tokens(text, i) ==> IsStr(t)
    decreases |text| - i
  {
    var j := SkipSpaces(text, i);
    if j < |text| {
      TokensAreStr(text, TokenEnd(text, j));
    }
  }

  lemma {:induction false} TokensAt(text: Str, cur: nat, start: nat)
    requires cur <= |text| && SkipSpaces(text, cur) == start
    ensures start == |text| ==> Tokens(text, cur) == [] && Tokens(text, start) == []
    ensures start < |text| ==>
      var end := TokenEnd(text, start);
      && Tokens(text, cur) == [text[start..end]] + Tokens(text, end) && text[start..end] in Tokens(text, cur)
      && start < end
  {}

  /** GetToken: the next token, empty at the end of the manifest.  The source's buffer holds
      tokens of fewer than 512 bytes. */
  method GetToken(text: Str, cur: nat) returns (tok: Str, next: nat)
    requires cur <= |text| && forall t :: t in Tokens(text, cur) ==> |t| < TOKEN_MAX
    ensures cur <= next <= |text|
    ensures Tokens(text, cur) == [] ==> tok == [] && Tokens(text, next) == []
    ensures Tokens(text, cur) != [] ==> tok != [] && Tokens(text, cur) == [tok] + Tokens(text, next) && cur < next
  {
    next := cur;
    while next < |text| && IsSpace(text[next])
      invariant cur <= next <= |text| && SkipSpaces(text, cur) == SkipSpaces(text, next)
    {
      next := next + 1;
    }
    var start := next;
    TokensAt(text, cur, start);
    hide Tokens, SkipSpaces;
    var i := 0;
    while i < TOKEN_MAX && start + i < |text| && !IsSpace(text[start + i])
      invariant start + i <= |text| && TokenEnd(text, start) == TokenEnd(text, start + i)
    {
      i := i + 1;
    }
    tok, next := text[start..start + i], start + i;
  }
}
