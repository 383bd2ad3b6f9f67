/**
 * The decoder of src/bencode.rs. The original advances a shared cursor `&mut &str`;
 * here the input is a fixed string `s` and the cursor is an index `pos` into it: each
 * method takes the cursor where the original reads it and returns where the original
 * leaves it (`next`). A panic becomes an `Err`, after which the cursor is meaningless.
 * Each method is proved to compute the function of BencodeSpec on `s[pos..]`.
 */
module Bencode {
  import opened Results
  import opened Json
  import opened Text
  import opened BencodeSpec

  /** `decode`: decode one value from the start of `encoded` and drop whatever input remains. */
  method Decode(encoded: string) returns (r: Result<Value>)
    ensures r.Ok? <==> ParseValue(encoded).Done?
    ensures r.Ok? ==> r.value == ParseValue(encoded).value
    ensures r.Err? ==> r.error == ParseValue(encoded).error
  {
    var next;
    r, next := DecodeBencodedValue(encoded, 0);
  }

  /** `decode_bencoded_value`: dispatch on the character under the cursor. */
  method DecodeBencodedValue(s: string, pos: nat) returns (r: Result<Value>, next: nat)
    requires pos <= |s|
    ensures pos <= next <= |s|
    ensures r.Ok? ==> ParseValue(s[pos..]) == Done(r.value, s[next..])
    ensures r.Err? ==> ParseValue(s[pos..]) == Fail(r.error)
    decreases |s| - pos, 1
  {
    if pos == |s| {
      return Ok(Null), pos;
    }
    ghost var t := s[pos..];
    assert t[0] == s[pos] && EndsWith(t, 'e') == (s[|s| - 1] == 'e');
    var c := s[pos];
    if c == 'i' {
      r, next := DecodeInteger(s, pos);
    } else if c == 'd' && s[|s| - 1] == 'e' {
      var entries;
      entries, next := DecodeBencodedDictionary(s, pos + 1);
      r := Err(entries.error);
    } else if c == 'l' && s[|s| - 1] == 'e' {
      assert t[1..] == s[pos + 1..];
      var items;
      items, next := DecodeBencodedList(s, pos + 1);
      r := if items.Ok? then Ok(Array(items.value)) else Err(items.error);
    } else if IsDigit(c) {
      r, next := DecodeString(s, pos);
    } else {
      r, next := Err(Unhandled), pos;
    }
  }

  /** The integer arm of `decode_bencoded_value`: the cursor moves past the first `e`. */
  method DecodeInteger(s: string, pos: nat) returns (r: Result<Value>, next: nat)
    requires pos < |s| && s[pos] == 'i'
    ensures pos <= next <= |s|
    ensures r.Ok? ==> ParseInteger(s[pos..]) == Done(r.value, s[next..])
    ensures r.Err? ==> ParseInteger(s[pos..]) == Fail(r.error)
  {
    var t := s[pos..];
    match FirstIndex(t, 'e')
    case None =>
      r, next := Err(InvalidInteger), pos;
    case Some(k) =>
      assert t[k + 1..] == s[pos + k + 1..];
      r, next := Ok(Number(NumberOrZero(t[1..k]))), pos + k + 1;
  }

  /** The string arm of `decode_bencoded_value`: the cursor moves past the string's characters. */
  method DecodeString(s: string, pos: nat) returns (r: Result<Value>, next: nat)
    requires pos < |s| && IsDigit(s[pos])
    ensures pos <= next <= |s|
    ensures r.Ok? ==> ParseString(s[pos..]) == Done(r.value, s[next..])
    ensures r.Err? ==> ParseString(s[pos..]) == Fail(r.error)
  {
    var t := s[pos..];
    match FirstIndex(t, ':')
    case None =>
      r, next := Err(MissingColon), pos;
    case Some(colon) =>
      match ParseUsize(t[..colon])
      case None =>
        r, next := Err(InvalidLength), pos;
      case Some(n) =>
        if n <= |t| - (colon + 1) {
          var stop := colon + 1 + n;
          assert t[stop..] == s[pos + stop..];
          r, next := Ok(String(t[colon + 1..stop])), pos + stop;
        } else {
          r, next := Err(StringOutOfBounds), pos;
        }
  }

  /** `decode_benencoded_dictionary`: a `todo!()`, so every call fails. */
  method DecodeBencodedDictionary(s: string, pos: nat) returns (r: Result<seq<Value>>, next: nat)
    requires pos <= |s|
    ensures r == Err(DictionaryNotImplemented)
    ensures next == pos
  {
    r, next := Err(DictionaryNotImplemented), pos;
  }

  /** `decode_benencoded_list`, with the cursor just past the `l`: decode elements until the
      cursor is at an `e`, keeping them in order, then step over that `e`. */
  method DecodeBencodedList(s: string, pos: nat) returns (r: Result<seq<Value>>, next: nat)
    requires pos <= |s|
    ensures pos <= next <= |s|
    ensures r.Ok? ==> ParseList(s[pos..]) == Done(r.value, s[next..])
    ensures r.Err? ==> ParseList(s[pos..]) == Fail(r.error)
    decreases |s| - pos, 2
  {
    var elements: seq<Value> := [];
    var cur := pos;
    PrependNothing(ParseList(s[pos..]));
    while !(cur < |s| && s[cur] == 'e')
      invariant pos <= cur <= |s|
      invariant ParseList(s[pos..]) == PrependAll(elements, ParseList(s[cur..]))
      decreases |s| - cur
    {
      if cur == |s| {
        return Err(UnexpectedEndOfList), cur;
      }
      var element, after := DecodeBencodedValue(s, cur);
      ListElement(ParseList(s[pos..]), elements, s[cur..]);
      if element.Err? {
        return Err(element.error), cur;
      }
      elements := elements + [element.value];
      cur := after;
    }
    ListEnd(ParseList(s[pos..]), elements, s[cur..]);
    assert s[cur..][1..] == s[cur + 1..];
    r, next := Ok(elements), cur + 1;
  }
}
