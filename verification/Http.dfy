/** Requests and their headers (include/header.hpp, include/request.hpp). */
module Http {
  import opened Text

  datatype Header = Header(name: string, value: string)

  /** What a `Request` object holds. The version numbers are unbounded here. */
  datatype RequestValue = RequestValue(
    method_: string, uri: string, major: int, minor: int, headers: seq<Header>, content: string)

  /** The index of the first header of the given name, or `|hs|`. */
  function FirstHeader(hs: seq<Header>, name: string): (i: nat)
    ensures i <= |hs|
    ensures i < |hs| ==> hs[i].name == name
    ensures forall j | 0 <= j < i :: hs[j].name != name
  {
    if hs == [] || hs[0].name == name then 0 else 1 + FirstHeader(hs[1..], name)
  }

  function HeaderValue(hs: seq<Header>, name: string): string {
    var i := FirstHeader(hs, name);
    if i < |hs| then hs[i].value else ""
  }

  lemma FirstHeaderIs(hs: seq<Header>, name: string, i: nat)
    requires i <= |hs| && (i < |hs| ==> hs[i].name == name)
    requires forall j | 0 <= j < i :: hs[j].name != name
    ensures FirstHeader(hs, name) == i
  {
  }

  predicate Http11(r: RequestValue) {
    r.major > 1 || (r.major == 1 && r.minor > 0)
  }

  /** Keep-alive is asked for by the `connection` header, whatever its letter case, and
      otherwise by the version: HTTP/1.1 and later keep alive, HTTP/1.0 does not. */
  predicate WantsKeepalive(r: RequestValue) {
    var connection := Lower(HeaderValue(r.headers, "connection"));
    connection != "close" && (connection == "keep-alive" || Http11(r))
  }

  predicate IsHead(r: RequestValue) {
    r.method_ == "HEAD"
  }

  class Request {
    var method_: string
    var uri: string
    var major: int
    var minor: int
    var headers: seq<Header>
    var content: string

    function View(): RequestValue
      reads this
    {
      RequestValue(method_, uri, major, minor, headers, content)
    }

    /** The version numbers of a new request are indeterminate. */
    constructor ()
      ensures method_ == "" && uri == "" && headers == [] && content == ""
    {
      method_, uri, headers, content := "", "", [], "";
    }

    method Clear()
      modifies this
      ensures View() == RequestValue("", "", 0, 0, [], "")
    {
      method_ := "";
      uri := "";
      major := 0;
      minor := 0;
      headers := [];
      content := "";
    }

    method GetHeader(name: string) returns (value: string)
      ensures value == HeaderValue(headers, name)
    {
      var hi := 0;
      while hi != |headers|
        invariant hi <= |headers|
        invariant forall j | 0 <= j < hi :: headers[j].name != name
        decreases |headers| - hi
      {
        if headers[hi].name == name {
          FirstHeaderIs(headers, name, hi);
          return headers[hi].value;
        }
        hi := hi + 1;
      }
      return "";
    }

    method IsHttp11() returns (b: bool)
      ensures b == Http11(View())
    {
      if major > 1 || (major == 1 && minor > 0) {
        return true;
      }
      return false;
    }

    method WantKeepalive() returns (rc: bool)
      ensures rc == WantsKeepalive(View())
    {
      rc := IsHttp11();
      var value := GetHeader("connection");
      var cxnHdr := Lower(value);
      if cxnHdr == "close" {
        rc := false;
      } else if cxnHdr == "keep-alive" {
        rc := true;
      }
    }
  }
}
