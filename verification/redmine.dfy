/** The Redmine issue snapshot the migration reads, reduced to the
    attributes it uses, and the script's configuration. */
module Redmine {

  /** A Redmine `datetime` value, as returned for `created_on`. */
  datatype DateTime = DateTime(year: int, month: int, day: int, hour: int, minute: int, second: int)

  /** A Redmine user resource (issue author or journal author). */
  datatype User = User(id: nat, name: string)

  /** One journal (history entry) of an issue. */
  datatype Journal = Journal(user: User, createdOn: DateTime, notes: string)

  datatype Issue = Issue(
    id: nat,
    subject: string,
    author: User,
    createdOn: DateTime,
    description: string,
    journals: seq<Journal>)

  /** The settings `config.py` supplies: `REDMINE_URL` and `MAX_ISSUES`. */
  datatype Config = Config(redmineUrl: string, maxIssues: int)
}
