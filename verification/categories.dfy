/** The proxy categories, their names and schemes, and the main menu's numbering of them. */
module Categories {
  import opened Wrappers
  import Text

  /** The four kinds of proxy the tool downloads and checks. */
  datatype Category = HTTP | HTTPS | SOCKS4 | SOCKS5

  /** The spelling used by the menu table and as key of the source table. */
  function Name(c: Category): string {
    match c
    case HTTP => "HTTP"
    case HTTPS => "HTTPS"
    case SOCKS4 => "SOCKS4"
    case SOCKS5 => "SOCKS5"
  }

  /** The URL scheme an address of this category is wrapped with. */
  function Scheme(c: Category): string {
    match c
    case HTTP => "http"
    case HTTPS => "https"
    case SOCKS4 => "socks4"
    case SOCKS5 => "socks5"
  }

  /** A category's lowercased name is its scheme. */
  lemma LowerNameIsScheme(c: Category)
    ensures Text.Lower(Name(c)) == Scheme(c)
  {
  }

  /** The case-sensitive key lookup of the source table. */
  function FromName(name: string): (r: Option<Category>)
    ensures r.Some? ==> Name(r.value) == name
    ensures r.None? <==> forall c :: Name(c) != name
  {
    if name == "HTTP" then Some(HTTP)
    else if name == "HTTPS" then Some(HTTPS)
    else if name == "SOCKS4" then Some(SOCKS4)
    else if name == "SOCKS5" then Some(SOCKS5)
    else None
  }

  /** What the main loop does with the number typed at the menu prompt. */
  datatype MenuAction = Quit | Rejected | Pick(name: string)

  /** 0 leaves the loop, 1 to 4 select a category through the menu table, and
      every other number is rejected. A non-numeric answer reaches here as -1. */
  function Menu(choice: int): (a: MenuAction)
    ensures a == Quit <==> choice == 0
    ensures a.Pick? <==> 1 <= choice <= 4
    ensures a.Pick? ==> FromName(a.name).Some?
  {
    if choice == 0 then Quit
    else if choice == 1 then Pick("HTTP")
    else if choice == 2 then Pick("HTTPS")
    else if choice == 3 then Pick("SOCKS4")
    else if choice == 4 then Pick("SOCKS5")
    else Rejected
  }

  /** The menu numbers 1 to 4 pick HTTP, HTTPS, SOCKS4, SOCKS5 in that order,
      so every category is offered by exactly one number. */
  lemma MenuOffersEachCategoryOnce(c: Category)
    ensures var choice := match c case HTTP => 1 case HTTPS => 2 case SOCKS4 => 3 case SOCKS5 => 4;
            Menu(choice) == Pick(Name(c))
    ensures forall n, m :: Menu(n) == Pick(Name(c)) && Menu(m) == Pick(Name(c)) ==> n == m
  {
  }
}
