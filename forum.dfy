/**
 * The blog of `react/src/pages/Forum.js`: the new-post form with its
 * guard and reset, image choice, deletion confirmed by the server's answer,
 * and, per post, the comment box with its one-file attachment badge.
 */
module Forum {
  import opened Wrappers
  import opened Lists
  import opened Text
  import opened Files

  /** A post as the server returns it. */
  datatype BlogPost = BlogPost(id: int, title: string, content: string)

  /** A comment as the server returns it. */
  datatype Comment = Comment(id: int, text: string)

  /** A call the forum makes to the blog and comment services. */
  datatype ForumRequest =
    | CreateBlog(title: string, content: string, image: Option<FileRef>)
    | DeleteBlog(id: int)
    | CreateComment(text: string, file: Option<FileRef>, postId: int)

  /** `title.trim() && (newPost.trim() || image)`. */
  predicate CanPost(title: string, content: string, image: Option<FileRef>) {
    !IsBlank(title) && (!IsBlank(content) || image.Some?)
  }

  /** The text has a character that is not white space. */
  predicate HasText(s: string) {
    exists i :: 0 <= i < |s| && !IsJsSpace(s[i])
  }

  /** A post may be sent exactly when the title has text and either the body has text or an image is chosen. */
  lemma CanPostIff(title: string, content: string, image: Option<FileRef>)
    ensures CanPost(title, content, image) <==> HasText(title) && (HasText(content) || image.Some?)
  {
    BlankIff(title);
    BlankIff(content);
  }

  /** `posts.filter(blog => blog.id !== id)`. */
  function RemovePost(posts: seq<BlogPost>, id: int): (r: seq<BlogPost>)
    ensures |r| <= |posts|
    ensures forall p :: p in r <==> p in posts && p.id != id
  {
    Filter(posts, (p: BlogPost) => p.id != id)
  }

  /** Deleting a freshly prepended post that has a new id gives back the earlier list. */
  lemma RemoveNewPost(posts: seq<BlogPost>, created: BlogPost)
    requires forall p :: p in posts ==> p.id != created.id
    ensures RemovePost([created] + posts, created.id) == posts
  {
    FilterAppend([created], posts, (p: BlogPost) => p.id != created.id);
    FilterKeepsAll(posts, (p: BlogPost) => p.id != created.id);
    assert [created][1..] == [];
  }

  /** The `Forum` component's state fields and the calls it has made. */
  class ForumPage {
    var posts: seq<BlogPost>
    var title: string
    var newPost: string
    var image: Option<FileRef>
    /** The preview address of the chosen image. */
    var link: Option<string>
    var requests: seq<ForumRequest>

    /** The page mounts with the fetched posts and an empty form. */
    constructor (posts: seq<BlogPost>)
      ensures this.posts == posts && title == "" && newPost == "" && image == None && link == None && requests == []
    {
      this.posts, title, newPost, image, link, requests := posts, "", "", None, None, [];
    }

    /**
     * `handlePostSubmit`: when the guard fails nothing happens; otherwise,
     * once confirmed, the post is sent, and on success the server's post is
     * put first and the title, body and preview are cleared. The chosen
     * image is kept.
     */
    method HandlePostSubmit(confirmed: bool, callOk: bool, created: BlogPost) returns (attempted: bool)
      modifies this`posts, this`title, this`newPost, this`link, this`requests
      ensures attempted == CanPost(old(title), old(newPost), old(image))
      ensures requests == old(requests) + (if attempted && confirmed then [CreateBlog(old(title), old(newPost), image)] else [])
      ensures posts == if attempted && confirmed && callOk then [created] + old(posts) else old(posts)
      ensures (title, newPost, link) == if attempted && confirmed && callOk then ("", "", None) else old((title, newPost, link))
    {
      attempted := CanPost(title, newPost, image);
      if attempted && confirmed {
        SendPost(callOk, created);
      }
    }

    /** The confirmed part of `handlePostSubmit`: send, then on success put the post first and reset the form. */
    method SendPost(callOk: bool, created: BlogPost)
      modifies this`posts, this`title, this`newPost, this`link, this`requests
      ensures requests == old(requests) + [CreateBlog(old(title), old(newPost), image)]
      ensures posts == if callOk then [created] + old(posts) else old(posts)
      ensures (title, newPost, link) == if callOk then ("", "", None) else old((title, newPost, link))
    {
      requests := requests + [CreateBlog(title, newPost, image)];
      if callOk {
        posts := [created] + posts;
        ClearForm();
      }
    }

    /** The reset after a successful post: title, body and preview are cleared. */
    method ClearForm()
      modifies this`title, this`newPost, this`link
      ensures title == "" && newPost == "" && link == None
    {
      title, newPost, link := "", "", None;
    }

    /** `handleImageChange`: a chosen file becomes the image and its preview; a cancelled choice changes nothing. */
    method HandleImageChange(files: seq<FileRef>, previewUrl: string)
      modifies this`image, this`link
      ensures files == [] ==> image == old(image) && link == old(link)
      ensures files != [] ==> image == FirstFile(files) && link == Some(previewUrl)
    {
      if |files| > 0 {
        image := Some(files[0]);
        link := Some(previewUrl);
      }
    }

    /** `handleDelete`: after confirmation, the post is removed only when the server's answer has a truthy status. */
    method HandleDelete(id: int, confirmed: bool, callOk: bool, status: bool)
      modifies this`posts, this`requests
      ensures requests == old(requests) + (if confirmed then [DeleteBlog(id)] else [])
      ensures posts == if confirmed && callOk && status then RemovePost(old(posts), id) else old(posts)
    {
      if !confirmed {
        return;
      }
      requests := requests + [DeleteBlog(id)];
      if callOk && status {
        posts := RemovePost(posts, id);
      }
    }

    /** The title input. */
    method SetTitle(text: string)
      modifies this`title
      ensures title == text
    {
      title := text;
    }

    /** The body text area. */
    method SetNewPost(text: string)
      modifies this`newPost
      ensures newPost == text
    {
      newPost := text;
    }
  }

  /** `(number !== 0)`: the attachment badge is shown. */
  predicate ShowBadge(number: nat) {
    number != 0
  }

  /** The `Post` component of one post: its comment box and its comments. */
  class PostCard {
    const postId: int
    var comment: string
    var files: seq<FileRef>
    /** The number on the attachment badge. */
    var number: nat
    var comments: seq<Comment>
    var requests: seq<ForumRequest>

    /** The badge reads 1 when some file is attached and 0 otherwise, however many files there are. */
    ghost predicate Valid()
      reads this
    {
      number == if files == [] then 0 else 1
    }

    /** A card mounts with an empty comment box and the comments it was given. */
    constructor (postId: int, comments: seq<Comment>)
      ensures Valid()
      ensures this.postId == postId && this.comments == comments
      ensures comment == "" && files == [] && number == 0 && requests == []
    {
      this.postId, this.comments := postId, comments;
      comment, files, number, requests := "", [], 0, [];
    }

    /** `handleFileChange`: all chosen files are kept; the badge only says whether there is one. */
    method HandleFileChange(selected: seq<FileRef>)
      modifies this`files, this`number
      ensures Valid()
      ensures files == selected
      ensures ShowBadge(number) <==> selected != []
    {
      files := selected;
      number := if |selected| > 0 then 1 else 0;
    }

    /**
     * `handleCommentSubmit`: sends the text with the first file only; on
     * success the server's comment is put first and the box, the files and
     * the badge are cleared.
     */
    method HandleCommentSubmit(callOk: bool, created: Comment)
      requires Valid()
      modifies this`comment, this`files, this`number, this`comments, this`requests
      ensures Valid()
      ensures requests == old(requests) + [CreateComment(old(comment), FirstFile(old(files)), postId)]
      ensures callOk ==> comments == [created] + old(comments) && comment == "" && files == [] && number == 0
      ensures !callOk ==> comments == old(comments) && comment == old(comment) && files == old(files) && number == old(number)
    {
      requests := requests + [CreateComment(comment, FirstFile(files), postId)];
      if callOk {
        comments := [created] + comments;
        comment, files, number := "", [], 0;
      }
    }

    /** The comment box. */
    method SetComment(text: string)
      requires Valid()
      modifies this`comment
      ensures Valid()
      ensures comment == text
    {
      comment := text;
    }
  }
}
