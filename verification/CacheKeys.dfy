/** The keys under which rendered pages and documents are cached. */
module CacheKeys {

  type Bytes = seq<bv8>

  /** The two call sites of the cache: a page to be made an image, and a document to be made from HTML. */
  datatype Call = Png(page: Bytes, hideNotify: bool) | TemplatedPdf(html: string)

  /** How Python turns bytes into text, and SHA-1 as a hexadecimal text. */
  datatype Hashing = Hashing(text: Bytes -> string, sha1: string -> string)

  ghost predicate Injective(h: Hashing) {
    && (forall a, b :: h.text(a) == h.text(b) ==> a == b)
    && (forall a, b :: h.sha1(a) == h.sha1(b) ==> a == b)
  }

  function BoolText(b: bool): string {
    if b then "True" else "False"
  }

  /** The arguments of a call, as text, run together. */
  function Hashed(h: Hashing, call: Call): string {
    match call
    case Png(page, hideNotify) => h.text(page) + BoolText(hideNotify)
    case TemplatedPdf(html) => html
  }

  function Folder(call: Call): string {
    if call.Png? then "pngs" else "templated"
  }

  function Extension(call: Call): string {
    if call.Png? then "png" else "pdf"
  }

  function CacheKey(h: Hashing, call: Call): string {
    Folder(call) + "/" + h.sha1(Hashed(h, call)) + "." + Extension(call)
  }

  /** The keys of the two call sites. */
  lemma KeysLook(h: Hashing, page: Bytes, hideNotify: bool, html: string)
    ensures CacheKey(h, Png(page, hideNotify))
         == "pngs/" + h.sha1(h.text(page) + (if hideNotify then "True" else "False")) + ".png"
    ensures CacheKey(h, TemplatedPdf(html)) == "templated/" + h.sha1(html) + ".pdf"
  {
    assert "pngs" + "/" == "pngs/" && "templated" + "/" == "templated/";
    var x, y := h.sha1(Hashed(h, Png(page, hideNotify))), h.sha1(html);
    assert CacheKey(h, Png(page, hideNotify)) == "pngs/" + x + ("." + "png");
    assert CacheKey(h, TemplatedPdf(html)) == "templated/" + y + ("." + "pdf");
    assert "." + "png" == ".png" && "." + "pdf" == ".pdf";
  }

  lemma Cancel<T>(before: seq<T>, a: seq<T>, b: seq<T>, after: seq<T>)
    requires before + a + after == before + b + after
    ensures a == b
  {
    var s, t := before + a + after, before + b + after;
    assert |a| == |b|;
    assert a == s[|before|..|before| + |a|];
    assert b == t[|before|..|before| + |b|];
  }

  /** Neither text of a truth value ends with the other, so what stands before it can be told. */
  lemma BoolTextEnds(s: string, t: string, a: bool, b: bool)
    requires s + BoolText(a) == t + BoolText(b)
    ensures s == t && a == b
  {
    var x, y := s + BoolText(a), t + BoolText(b);
    assert x[|x| - 2] == (if a then 'u' else 's');
    assert y[|y| - 2] == (if b then 'u' else 's');
    assert s == x[..|s|] && t == y[..|t|];
  }

  /** Different calls have different keys, across and within the folders. */
  lemma KeysAreInjective(h: Hashing, a: Call, b: Call)
    requires Injective(h)
    ensures CacheKey(h, a) == CacheKey(h, b) <==> a == b
  {
    if CacheKey(h, a) == CacheKey(h, b) {
      assert CacheKey(h, a)[0] == (if a.Png? then 'p' else 't');
      assert CacheKey(h, b)[0] == (if b.Png? then 'p' else 't');
      var x, y := h.sha1(Hashed(h, a)), h.sha1(Hashed(h, b));
      assert CacheKey(h, a) == Folder(a) + "/" + x + ("." + Extension(a));
      assert CacheKey(h, b) == Folder(a) + "/" + y + ("." + Extension(a));
      Cancel(Folder(a) + "/", x, y, "." + Extension(a));
      if a.Png? {
        BoolTextEnds(h.text(a.page), h.text(b.page), a.hideNotify, b.hideNotify);
      }
    }
  }
}
