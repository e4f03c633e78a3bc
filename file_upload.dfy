/**
 * FileUpload: the record of one uploaded file, with a size kept beside the
 * byte content. The three-argument constructor and setBytes set the size to
 * the content's length (0 for null); setSize overwrites it with any value.
 */
module Upload {
  import opened Wrappers
  import opened JavaText

  /** Java's signed byte. */
  newtype Byte = x: int | -128 <= x < 128

  /** The content of a Java byte[]: its length is an int. */
  type ByteArray = s: seq<Byte> | |s| <= 0x7fff_ffff

  /** The size the constructor and setBytes derive from the content. */
  function SizeOf(bytes: Option<ByteArray>): (n: Int64)
    ensures bytes.None? ==> n == 0
    ensures bytes.Some? ==> n as int == |bytes.value|
  {
    if bytes.Some? then |bytes.value| as Int64 else 0
  }

  /** The suffix after the last '.', or "" when the name is null or has no '.'. */
  function Extension(fileName: Option<string>): (r: string)
    ensures '.' !in r
    ensures fileName.None? || '.' !in fileName.value ==> r == ""
    ensures fileName.Some? && '.' in fileName.value ==>
              exists k :: 0 <= k < |fileName.value| && fileName.value[k] == '.' && fileName.value == fileName.value[..k + 1] + r
  {
    if fileName.None? || '.' !in fileName.value then ""
    else
      var name := fileName.value;
      var k := LastIndexOf(name, '.');
      assert name == name[..k + 1] + name[k + 1..];
      name[k + 1..]
  }

  class FileUpload {
    var fileName: Option<string>
    var contentType: Option<string>
    var bytes: Option<ByteArray>
    var size: Int64

    /** `new FileUpload()`: every field at its Java default. */
    constructor Empty()
      ensures fileName == None && contentType == None && bytes == None && size == 0
    {
      fileName, contentType, bytes, size := None, None, None, 0;
    }

    constructor (fileName: Option<string>, contentType: Option<string>, bytes: Option<ByteArray>)
      ensures this.fileName == fileName && this.contentType == contentType && this.bytes == bytes
      ensures SizeConsistent()
    {
      this.fileName := fileName;
      this.contentType := contentType;
      this.bytes := bytes;
      this.size := if bytes.Some? then |bytes.value| as Int64 else 0;
    }

    /** The relationship the constructor and setBytes establish. */
    predicate SizeConsistent()
      reads this
    {
      size == SizeOf(bytes)
    }

    method SetFileName(fileName: Option<string>)
      modifies this`fileName
      ensures this.fileName == fileName
      ensures contentType == old(contentType) && bytes == old(bytes) && size == old(size)
    {
      this.fileName := fileName;
    }

    method SetContentType(contentType: Option<string>)
      modifies this`contentType
      ensures this.contentType == contentType
      ensures fileName == old(fileName) && bytes == old(bytes) && size == old(size)
    {
      this.contentType := contentType;
    }

    method SetBytes(bytes: Option<ByteArray>)
      modifies this`bytes, this`size
      ensures this.bytes == bytes && SizeConsistent()
      ensures fileName == old(fileName) && contentType == old(contentType)
    {
      this.bytes := bytes;
      this.size := if bytes.Some? then |bytes.value| as Int64 else 0;
    }

    /** Sets the size alone; a size other than the content's length breaks SizeConsistent. */
    method SetSize(size: Int64)
      modifies this`size
      ensures this.size == size
      ensures fileName == old(fileName) && contentType == old(contentType) && bytes == old(bytes)
      ensures SizeConsistent() <==> size == SizeOf(bytes)
    {
      this.size := size;
    }

    /** isEmpty: no content, or content of length 0; while SizeConsistent, the same as a zero size. */
    function IsEmpty(): (r: bool)
      reads this
      ensures SizeConsistent() ==> (r <==> size == 0)
    {
      bytes.None? || |bytes.value| == 0
    }

    /** getExtension. */
    function GetExtension(): string
      reads this
    {
      Extension(fileName)
    }
  }

  /** The extension is what follows the last dot. */
  lemma ExtensionAfterLastDot(base: string, ext: string)
    requires '.' !in ext
    ensures Extension(Some(base + "." + ext)) == ext
  {
    var name := base + "." + ext;
    assert name[|base|] == '.';
    var k := LastIndexOf(name, '.');
    assert name[|base| + 1..] == ext;
  }
}
